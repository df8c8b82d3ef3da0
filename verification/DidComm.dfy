/** DIDComm v2 envelopes (services/identity/pkg/didcomm/didcomm.go): a content key is
    wrapped for each recipient under a key agreed by X25519 and Concat KDF
    (section 4.6.2 of RFC 7518), and the content is sealed under it. Go strings are
    byte sequences. */
module DidComm {

  import opened Bytes
  import opened Wrappers
  import opened Sorting
  import KW = KeyWrap

  datatype Header = Header(typ: Text, alg: Text, enc: Text, skid: Text, apu: Text, apv: Text)

  datatype Recipient = Recipient(kid: Text, pub: seq<byte>)

  /** `epk` is the base64url x-coordinate of the ephemeral key, if present. */
  datatype JweRecipient = JweRecipient(kid: Text, epk: Option<Text>, encryptedKey: Text)

  datatype Envelope = Envelope(protected: Text, recipients: seq<JweRecipient>, iv: Text, ciphertext: Text, tag: Text)

  /** The cryptographic and encoding libraries the package calls. */
  datatype Prims = Prims(
    cipher: KW.Cipher,
    x25519: (seq<byte>, seq<byte>) -> Option<seq<byte>>,
    basepoint: seq<byte>,
    sha256: seq<byte> -> seq<byte>,
    seal: (seq<byte>, seq<byte>, seq<byte>, seq<byte>) -> seq<byte>,
    open: (seq<byte>, seq<byte>, seq<byte>, seq<byte>) -> Option<seq<byte>>,
    b64: seq<byte> -> Text,
    unb64: Text -> Option<seq<byte>>,
    headerJson: Header -> seq<byte>,
    parseHeader: seq<byte> -> Option<Header>,
    envelopeJson: Envelope -> seq<byte>,
    parseEnvelope: seq<byte> -> Option<Envelope>,
    coerce: Text -> Text)

  const OVERHEAD := 16
  const NONCE := 24

  /** Diffie-Hellman is symmetric in the two key pairs. */
  ghost predicate Agreement(p: Prims) {
    forall a, b, pubA, pubB {:trigger KeyPair(p, a, pubA), KeyPair(p, b, pubB)} ::
      KeyPair(p, a, pubA) && KeyPair(p, b, pubB) ==> p.x25519(a, pubB) == p.x25519(b, pubA)
  }

  ghost predicate KeyPair(p: Prims, priv: seq<byte>, pub: seq<byte>) {
    p.x25519(priv, p.basepoint) == Some(pub)
  }

  /** JSON keeps the fields, except that strings which are not UTF-8 are coerced. */
  function CleanHeader(p: Prims, h: Header): Header {
    Header(p.coerce(h.typ), p.coerce(h.alg), p.coerce(h.enc), p.coerce(h.skid), p.coerce(h.apu), p.coerce(h.apv))
  }

  function CleanEntry(p: Prims, r: JweRecipient): JweRecipient {
    JweRecipient(p.coerce(r.kid), if r.epk.Some? then Some(p.coerce(r.epk.value)) else None, p.coerce(r.encryptedKey))
  }

  function CleanEntries(p: Prims, rs: seq<JweRecipient>): (r: seq<JweRecipient>)
    ensures |r| == |rs|
  {
    seq(|rs|, i requires 0 <= i < |rs| => CleanEntry(p, rs[i]))
  }

  function CleanEnvelope(p: Prims, e: Envelope): Envelope {
    Envelope(p.coerce(e.protected), CleanEntries(p, e.recipients),
             p.coerce(e.iv), p.coerce(e.ciphertext), p.coerce(e.tag))
  }

  /** Coercion leaves UTF-8 alone: base64 text, the constants of the header and the empty string. */
  ghost predicate Coercion(p: Prims) {
    && (forall x {:trigger p.b64(x)} :: p.coerce(p.b64(x)) == p.b64(x))
    && p.coerce(MEDIA_TYPE) == MEDIA_TYPE && p.coerce(XC20P) == XC20P
    && p.coerce(ANONCRYPT) == ANONCRYPT && p.coerce(AUTHCRYPT) == AUTHCRYPT
    && (forall s {:trigger p.coerce(s)} :: p.coerce(s) == [] <==> s == [])
  }

  ghost predicate Lawful(p: Prims) {
    && KW.IsBlockCipher(p.cipher)
    && Agreement(p)
    && Coercion(p)
    && (forall a, q {:trigger p.x25519(a, q)} :: p.x25519(a, q).Some? ==> |p.x25519(a, q).value| == 32)
    && (forall x {:trigger p.sha256(x)} :: |p.sha256(x)| == 32)
    && (forall k, n, m, a {:trigger p.seal(k, n, m, a)} :: |k| == 32 && |n| == NONCE ==>
          |p.seal(k, n, m, a)| == |m| + OVERHEAD && p.open(k, n, p.seal(k, n, m, a), a) == Some(m))
    && p.b64([]) == []
    && (forall x {:trigger p.b64(x)} :: p.unb64(p.b64(x)) == Some(x))
    && (forall h {:trigger p.headerJson(h)} :: p.parseHeader(p.headerJson(h)) == Some(CleanHeader(p, h)))
    && (forall e {:trigger p.envelopeJson(e)} :: p.parseEnvelope(p.envelopeJson(e)) == Some(CleanEnvelope(p, e)))
  }

  datatype Error =
    | NoRecipients | EphemeralKey | KeyAgreement(kid: Text) | KeyWrapFailed(kid: Text)
    | BadEnvelope | BadHeader | NeedSenderKey | UnknownSender | NoMatchingRecipient
    | BadIv | BadCiphertext | BadTag | NoncePanic | DecryptFailed

  const MEDIA_TYPE := Ascii("application/didcomm-encrypted+json")
  const ANONCRYPT := Ascii("ECDH-ES+A256KW")
  const AUTHCRYPT := Ascii("ECDH-1PU+A256KW")
  const XC20P := Ascii("XC20P")
  const DOT := Ascii(".")

  // ----- header -----

  function Kids(recipients: seq<Recipient>): (kids: seq<Text>)
    ensures |kids| == |recipients|
  {
    seq(|recipients|, i requires 0 <= i < |recipients| => recipients[i].kid)
  }

  function Join(kids: seq<Text>): Text {
    if |kids| == 0 then []
    else if |kids| == 1 then kids[0]
    else Join(kids[..|kids| - 1]) + DOT + kids[|kids| - 1]
  }

  function Apv(p: Prims, recipients: seq<Recipient>): Text {
    p.b64(p.sha256(Join(Sort(Kids(recipients)))))
  }

  function MakeHeader(p: Prims, recipients: seq<Recipient>, senderKid: Text, senderPriv: Option<seq<byte>>): Header {
    if senderPriv.Some?
    then Header(MEDIA_TYPE, AUTHCRYPT, XC20P, senderKid, p.b64(senderKid), Apv(p, recipients))
    else Header(MEDIA_TYPE, ANONCRYPT, XC20P, [], [], Apv(p, recipients))
  }

  /** The protected header, and with it every derived key, ignores the order of the recipients. */
  lemma HeaderIgnoresOrder(p: Prims, r1: seq<Recipient>, r2: seq<Recipient>, senderKid: Text,
                           senderPriv: Option<seq<byte>>)
    requires multiset(Kids(r1)) == multiset(Kids(r2))
    ensures MakeHeader(p, r1, senderKid, senderPriv) == MakeHeader(p, r2, senderKid, senderPriv)
  {
    SortOfPermutation(Kids(r1), Kids(r2));
  }

  // ----- key agreement -----

  function Party(p: Prims, info: Text): Option<seq<byte>> {
    if info == [] then Some([]) else p.unb64(info)
  }

  /** Counter, shared secret, the three length-prefixed fields and the key length in bits. */
  function KdfInput(z: seq<byte>, alg: Text, u: seq<byte>, v: seq<byte>): seq<byte> {
    BigEndian(1, 4) + z + Field(alg) + Field(u) + Field(v) + BigEndian(256, 4)
  }

  function Field(x: seq<byte>): seq<byte> {
    BigEndian(|x|, 4) + x
  }

  function ConcatKdf(p: Prims, z: seq<byte>, alg: Text, apu: Text, apv: Text): Option<seq<byte>> {
    match (Party(p, apu), Party(p, apv))
    case (Some(u), Some(v)) => Some(p.sha256(KdfInput(z, alg, u, v)))
    case _ => None
  }

  function SenderKek(p: Prims, eph: seq<byte>, senderPriv: Option<seq<byte>>, recipPub: seq<byte>,
                     hdr: Header): Option<seq<byte>> {
    match (p.x25519(eph, recipPub), senderPriv)
    case (None, _) => None
    case (Some(z), None) => ConcatKdf(p, z, hdr.alg, [], hdr.apv)
    case (Some(ze), Some(sp)) =>
      match p.x25519(sp, recipPub)
      case None => None
      case Some(zs) => ConcatKdf(p, ze + zs, hdr.alg, hdr.apu, hdr.apv)
  }

  function RecipientKek(p: Prims, ephPub: seq<byte>, recipPriv: seq<byte>, senderPub: seq<byte>,
                        hdr: Header): Option<seq<byte>> {
    if hdr.alg == ANONCRYPT then
      match p.x25519(recipPriv, ephPub)
      case None => None
      case Some(z) => ConcatKdf(p, z, hdr.alg, [], hdr.apv)
    else if hdr.alg == AUTHCRYPT then
      match (p.x25519(recipPriv, ephPub), p.x25519(recipPriv, senderPub))
      case (Some(ze), Some(zs)) => ConcatKdf(p, ze + zs, hdr.alg, hdr.apu, hdr.apv)
      case _ => None
    else None
  }

  lemma AlgorithmsDiffer()
    ensures ANONCRYPT != AUTHCRYPT
  {
    assert |ANONCRYPT| == 14 && |AUTHCRYPT| == 15;
  }

  /** Both ends derive the same key-encryption key. */
  lemma KeksAgree(p: Prims, eph: seq<byte>, ephPub: seq<byte>, recipPriv: seq<byte>, recipPub: seq<byte>,
                  senderPriv: Option<seq<byte>>, senderPub: seq<byte>, recipients: seq<Recipient>, senderKid: Text)
    requires Lawful(p)
    requires KeyPair(p, eph, ephPub) && KeyPair(p, recipPriv, recipPub)
    requires senderPriv.Some? ==> KeyPair(p, senderPriv.value, senderPub)
    ensures var hdr := MakeHeader(p, recipients, senderKid, senderPriv);
            SenderKek(p, eph, senderPriv, recipPub, hdr) == RecipientKek(p, ephPub, recipPriv, senderPub, hdr)
  {
    hide ConcatKdf, Ascii, Apv;
    AlgorithmsDiffer();
    assert p.x25519(eph, recipPub) == p.x25519(recipPriv, ephPub);
  }

  // ----- what the derived key depends on -----

  datatype KdfFields = KdfFields(counter: nat, z: seq<byte>, alg: Text, u: seq<byte>, v: seq<byte>, bits: nat)

  /** A 32-bit length, that many bytes, and what follows. */
  function ReadField(bytes: seq<byte>): Option<(seq<byte>, seq<byte>)> {
    if |bytes| < 4 then None
    else
      var end := 4 + FromBigEndian(bytes[..4]);
      if |bytes| < end then None else Some((bytes[4..end], bytes[end..]))
  }

  /** The hash input of section 4.6.2 of RFC 7518 for one round, read from the front. */
  function ReadKdf(bytes: seq<byte>, zLength: nat): Option<KdfFields> {
    if |bytes| < 4 + zLength then None
    else
      match ReadField(bytes[4 + zLength..])
      case None => None
      case Some((alg, afterAlg)) =>
        match ReadField(afterAlg)
        case None => None
        case Some((u, afterU)) =>
          match ReadField(afterU)
          case None => None
          case Some((v, last)) =>
            if |last| != 4 then None
            else Some(KdfFields(FromBigEndian(bytes[..4]), bytes[4..4 + zLength], alg, u, v, FromBigEndian(last)))
  }

  const FIELD_LIMIT := 0x1_0000_0000

  lemma FourBytes()
    ensures Power256(4) == FIELD_LIMIT
  {
    assert Power256(2) == 0x1_0000;
  }

  lemma FieldReadBack(x: seq<byte>, rest: seq<byte>)
    requires |x| < FIELD_LIMIT
    ensures ReadField(Field(x) + rest) == Some((x, rest))
  {
    FourBytes();
    BigEndianRoundTrip(|x|, 4);
    hide BigEndian, FromBigEndian, Power256;
    var bytes := Field(x) + rest;
    assert bytes[..4] == BigEndian(|x|, 4);
    assert bytes[4..4 + |x|] == x && bytes[4 + |x|..] == rest;
  }

  lemma WordReadBack(n: nat)
    requires n < 0x1_0000
    ensures FromBigEndian(BigEndian(n, 4)) == n
  {
    FourBytes();
    hide BigEndian, FromBigEndian, Power256;
    BigEndianRoundTrip(n, 4);
  }

  /** A reader of the standard recovers exactly what was hashed. */
  lemma KdfReadBack(z: seq<byte>, alg: Text, u: seq<byte>, v: seq<byte>)
    requires |alg| < FIELD_LIMIT && |u| < FIELD_LIMIT && |v| < FIELD_LIMIT
    ensures ReadKdf(KdfInput(z, alg, u, v), |z|) == Some(KdfFields(1, z, alg, u, v, 256))
  {
    hide BigEndian, FromBigEndian, ReadField, KdfInput, Field;
    WordReadBack(1);
    WordReadBack(256);
    KdfParts(z, alg, u, v);
    var last := BigEndian(256, 4);
    var afterU := Field(v) + last;
    var afterAlg := Field(u) + afterU;
    FieldReadBack(alg, afterAlg);
    FieldReadBack(u, afterU);
    FieldReadBack(v, last);
  }

  lemma KdfParts(z: seq<byte>, alg: Text, u: seq<byte>, v: seq<byte>)
    ensures var bytes := KdfInput(z, alg, u, v);
      && |bytes| >= 4 + |z| && bytes[..4] == BigEndian(1, 4) && bytes[4..4 + |z|] == z
      && bytes[4 + |z|..] == Field(alg) + (Field(u) + (Field(v) + BigEndian(256, 4)))
  {
    hide BigEndian, Field;
    var fields := Field(alg) + (Field(u) + (Field(v) + BigEndian(256, 4)));
    assert KdfInput(z, alg, u, v) == BigEndian(1, 4) + z + fields;
  }

  /** The digest does not collide on these two inputs. */
  predicate NoCollision(p: Prims, x: seq<byte>, y: seq<byte>) {
    p.sha256(x) == p.sha256(y) ==> x == y
  }

  /** Equal derived keys mean equal shared secrets, algorithms and parties. */
  lemma KdfBinds(p: Prims, z: seq<byte>, alg: Text, u: seq<byte>, v: seq<byte>,
                 z': seq<byte>, alg': Text, u': seq<byte>, v': seq<byte>)
    requires |alg| < FIELD_LIMIT && |u| < FIELD_LIMIT && |v| < FIELD_LIMIT
    requires |alg'| < FIELD_LIMIT && |u'| < FIELD_LIMIT && |v'| < FIELD_LIMIT
    requires |z| == |z'| && NoCollision(p, KdfInput(z, alg, u, v), KdfInput(z', alg', u', v'))
    requires p.sha256(KdfInput(z, alg, u, v)) == p.sha256(KdfInput(z', alg', u', v'))
    ensures z == z' && alg == alg' && u == u' && v == v'
  {
    hide KdfInput, ReadKdf;
    KdfReadBack(z, alg, u, v);
    KdfReadBack(z', alg', u', v');
  }

  lemma ConcatKdfBinds(p: Prims, z: seq<byte>, alg: Text, apu: Text, apv: Text, z': seq<byte>, alg': Text, apu': Text,
                       apv': Text)
    requires |z| == |z'| && |alg| < FIELD_LIMIT && |alg'| < FIELD_LIMIT
    requires ConcatKdf(p, z, alg, apu, apv).Some?
             && ConcatKdf(p, z, alg, apu, apv) == ConcatKdf(p, z', alg', apu', apv')
    requires |Party(p, apu).value| < FIELD_LIMIT && |Party(p, apv).value| < FIELD_LIMIT
    requires |Party(p, apu').value| < FIELD_LIMIT && |Party(p, apv').value| < FIELD_LIMIT
    requires NoCollision(p, KdfInput(z, alg, Party(p, apu).value, Party(p, apv).value),
                         KdfInput(z', alg', Party(p, apu').value, Party(p, apv').value))
    ensures z == z' && alg == alg' && Party(p, apu) == Party(p, apu') && Party(p, apv) == Party(p, apv')
  {
    hide KdfInput;
    KdfBinds(p, z, alg, Party(p, apu).value, Party(p, apv).value, z', alg', Party(p, apu').value, Party(p, apv').value);
  }

  /** One derivation on the sending side. */
  datatype Sending = Sending(eph: seq<byte>, senderPriv: Option<seq<byte>>, senderKid: Text, recipPub: seq<byte>,
                             recipients: seq<Recipient>)

  function KekOf(p: Prims, s: Sending): Option<seq<byte>> {
    SenderKek(p, s.eph, s.senderPriv, s.recipPub, MakeHeader(p, s.recipients, s.senderKid, s.senderPriv))
  }

  /** The agreed secrets: ephemeral, and in authcrypt also the sender's static one. */
  function Secrets(p: Prims, s: Sending): Option<seq<byte>> {
    match (p.x25519(s.eph, s.recipPub), s.senderPriv)
    case (Some(ze), None) => Some(ze)
    case (Some(ze), Some(sp)) =>
      (match p.x25519(sp, s.recipPub)
       case None => None
       case Some(zs) => Some(ze + zs))
    case _ => None
  }

  /** What is hashed for this derivation: the agreed secrets, the mode, the sender's identifier in authcrypt,
      and the digest of the recipients. */
  function Hashed(p: Prims, s: Sending): seq<byte>
    requires Secrets(p, s).Some?
  {
    KdfInput(Secrets(p, s).value, if s.senderPriv.Some? then AUTHCRYPT else ANONCRYPT,
             if s.senderPriv.Some? then s.senderKid else [], p.sha256(Join(Sort(Kids(s.recipients)))))
  }

  lemma PartyOf(p: Prims, x: seq<byte>)
    requires Lawful(p)
    ensures Party(p, p.b64(x)) == Some(x)
  {
    hide KW.IsBlockCipher, Agreement, Coercion;
    assert p.unb64(p.b64(x)) == Some(x);
    assert p.unb64(p.b64([])) == Some([]);
  }

  lemma KekIsHashed(p: Prims, s: Sending)
    requires Lawful(p)
    ensures KekOf(p, s).Some? <==> Secrets(p, s).Some?
    ensures Secrets(p, s).Some? ==> KekOf(p, s) == Some(p.sha256(Hashed(p, s)))
  {
    hide Lawful, KdfInput, Sort, Join, MEDIA_TYPE, XC20P, ANONCRYPT, AUTHCRYPT;
    PartyOf(p, s.senderKid);
    PartyOf(p, p.sha256(Join(Sort(Kids(s.recipients)))));
    assert Party(p, []) == Some([]);
  }

  lemma DigestLength(p: Prims, x: seq<byte>)
    requires Lawful(p)
    ensures |p.sha256(x)| == 32
  {
    hide KW.IsBlockCipher, Agreement, Coercion;
  }

  lemma SecretsLength(p: Prims, s: Sending)
    requires Lawful(p) && Secrets(p, s).Some?
    ensures |Secrets(p, s).value| == if s.senderPriv.Some? then 64 else 32
  {
    hide KW.IsBlockCipher, Agreement, Coercion;
  }

  lemma ModeNames()
    ensures |ANONCRYPT| == 14 && |AUTHCRYPT| == 15
  {
  }

  /** Two derivations give the same key-encryption key only if they agreed on the same secrets, in the same
      mode, for the same sender identifier and the same recipients' digest. */
  lemma KekBinds(p: Prims, s: Sending, s': Sending)
    requires Lawful(p) && |s.senderKid| < FIELD_LIMIT && |s'.senderKid| < FIELD_LIMIT
    requires Secrets(p, s).Some? && Secrets(p, s').Some? && NoCollision(p, Hashed(p, s), Hashed(p, s'))
    requires KekOf(p, s) == KekOf(p, s')
    ensures s.senderPriv.Some? == s'.senderPriv.Some?
    ensures Secrets(p, s) == Secrets(p, s')
    ensures s.senderPriv.Some? ==> s.senderKid == s'.senderKid
    ensures p.sha256(Join(Sort(Kids(s.recipients)))) == p.sha256(Join(Sort(Kids(s'.recipients))))
  {
    hide Lawful, KekOf, Secrets, Sort, Join, ANONCRYPT, AUTHCRYPT;
    KekIsHashed(p, s);
    KekIsHashed(p, s');
    SecretsLength(p, s);
    SecretsLength(p, s');
    ModeNames();
    var v, v' := p.sha256(Join(Sort(Kids(s.recipients)))), p.sha256(Join(Sort(Kids(s'.recipients))));
    DigestLength(p, Join(Sort(Kids(s.recipients))));
    DigestLength(p, Join(Sort(Kids(s'.recipients))));
    SameMode(p, s, s');
    hide KdfInput;
    KdfBinds(p, Secrets(p, s).value, if s.senderPriv.Some? then AUTHCRYPT else ANONCRYPT,
             if s.senderPriv.Some? then s.senderKid else [], v,
             Secrets(p, s').value, if s'.senderPriv.Some? then AUTHCRYPT else ANONCRYPT,
             if s'.senderPriv.Some? then s'.senderKid else [], v');
  }

  lemma SameMode(p: Prims, s: Sending, s': Sending)
    requires Lawful(p) && Secrets(p, s).Some? && Secrets(p, s').Some? && Hashed(p, s) == Hashed(p, s')
    ensures s.senderPriv.Some? == s'.senderPriv.Some?
  {
    hide Lawful, Secrets, Sort, Join, ANONCRYPT, AUTHCRYPT, BigEndian;
    SecretsLength(p, s);
    SecretsLength(p, s');
    ModeNames();
    DigestLength(p, Join(Sort(Kids(s.recipients))));
    DigestLength(p, Join(Sort(Kids(s'.recipients))));
  }

  // ----- what the recipients' digest depends on -----

  ghost predicate DotFree(kids: seq<Text>) {
    forall i :: 0 <= i < |kids| ==> 0x2E !in kids[i]
  }

  lemma LastWord(x: Text, a: Text, y: Text, b: Text)
    requires x + DOT + a == y + DOT + b && 0x2E !in a && 0x2E !in b
    ensures x == y && a == b
  {
    LastDot(x, a);
    LastDot(y, b);
    var s := x + DOT + a;
    assert |x| == |y|;
    assert x == s[..|x|] && y == s[..|y|];
    assert a == s[|x| + 1..] && b == s[|y| + 1..];
  }

  lemma LastDot(x: Text, a: Text)
    requires 0x2E !in a
    ensures var s := x + DOT + a; s[|x|] == 0x2E && forall k :: |x| < k < |s| ==> s[k] != 0x2E
  {
    assert DOT == [0x2E];
    var s := x + DOT + a;
    forall k | |x| < k < |s| ensures s[k] != 0x2E {
      assert s[k] == a[k - |x| - 1];
    }
  }

  lemma JoinHasDot(kids: seq<Text>)
    requires |kids| > 1
    ensures 0x2E in Join(kids)
  {
    hide Join;
    JoinStep(kids);
    assert DOT == [0x2E];
    var front := Join(kids[..|kids| - 1]);
    assert (front + DOT + kids[|kids| - 1])[|front|] == 0x2E;
  }

  lemma JoinStep(kids: seq<Text>)
    ensures |kids| == 1 ==> Join(kids) == kids[0]
    ensures |kids| > 1 ==> Join(kids) == Join(kids[..|kids| - 1]) + DOT + kids[|kids| - 1]
  {
  }

  /** Identifiers without dots can be told apart again. */
  lemma {:induction false} JoinInjective(a: seq<Text>, b: seq<Text>)
    requires |a| > 0 && |b| > 0 && DotFree(a) && DotFree(b) && Join(a) == Join(b)
    ensures a == b
    decreases |a|
  {
    hide Join;
    JoinStep(a);
    JoinStep(b);
    if |a| > 1 {
      JoinHasDot(a);
    }
    if |b| > 1 {
      JoinHasDot(b);
    }
    if |a| > 1 && |b| > 1 {
      var m, n := |a| - 1, |b| - 1;
      LastWord(Join(a[..m]), a[m], Join(b[..n]), b[n]);
      JoinInjective(a[..m], b[..n]);
      assert a == a[..m] + [a[m]] && b == b[..n] + [b[n]];
    }
  }

  lemma SortedDotFree(kids: seq<Text>)
    requires DotFree(kids)
    ensures DotFree(Sort(kids)) && |Sort(kids)| == |kids|
  {
    hide Sort;
    var sorted := Sort(kids);
    assert |multiset(sorted)| == |multiset(kids)|;
    forall i | 0 <= i < |sorted| ensures 0x2E !in sorted[i] {
      assert sorted[i] in multiset(sorted);
      assert sorted[i] in kids;
    }
  }

  /** Without a collision, and with identifiers that contain no dot, the recipients' digest in the header
      changes with the recipients and with nothing else. */
  lemma ApvBindsRecipients(p: Prims, r1: seq<Recipient>, r2: seq<Recipient>)
    requires Lawful(p) && |r1| > 0 && |r2| > 0 && DotFree(Kids(r1)) && DotFree(Kids(r2))
    requires NoCollision(p, Join(Sort(Kids(r1))), Join(Sort(Kids(r2))))
    ensures Apv(p, r1) == Apv(p, r2) <==> multiset(Kids(r1)) == multiset(Kids(r2))
  {
    hide Lawful, Sort, Join, Kids;
    var k1, k2 := Kids(r1), Kids(r2);
    if multiset(k1) == multiset(k2) {
      SortOfPermutation(k1, k2);
    }
    if Apv(p, r1) == Apv(p, r2) {
      SameText(p, p.sha256(Join(Sort(k1))), p.sha256(Join(Sort(k2))));
      SortedDotFree(k1);
      SortedDotFree(k2);
      JoinInjective(Sort(k1), Sort(k2));
    }
  }

  lemma SameText(p: Prims, x: seq<byte>, y: seq<byte>)
    requires Lawful(p) && p.b64(x) == p.b64(y)
    ensures x == y
  {
    hide KW.IsBlockCipher, Agreement, Coercion;
    assert p.unb64(p.b64(x)) == Some(x) && p.unb64(p.b64(y)) == Some(y);
  }

  // ----- packing -----

  /** The entry for one recipient: fresh ephemeral key, agreed key, wrapped content key. */
  ghost function Entry(p: Prims, r: Recipient, eph: seq<byte>, cek: seq<byte>, senderPriv: Option<seq<byte>>,
                       hdr: Header)
    : Result<JweRecipient, Error>
    requires Lawful(p)
  {
    match p.x25519(eph, p.basepoint)
    case None => Err(EphemeralKey)
    case Some(ephPub) =>
      match SenderKek(p, eph, senderPriv, r.pub, hdr)
      case None => Err(KeyAgreement(r.kid))
      case Some(kek) =>
        match KW.Wrap(p.cipher, kek, cek)
        case Err(_) => Err(KeyWrapFailed(r.kid))
        case Ok(wrapped) => Ok(JweRecipient(r.kid, Some(p.b64(ephPub)), p.b64(wrapped)))
  }

  /** The entries of all recipients, or the first failure. */
  ghost function Entries(p: Prims, rs: seq<Recipient>, ephs: seq<seq<byte>>, cek: seq<byte>,
                         senderPriv: Option<seq<byte>>, hdr: Header)
    : (e: Result<seq<JweRecipient>, Error>)
    requires Lawful(p) && |rs| <= |ephs|
    ensures e.Ok? ==> |e.value| == |rs|
    decreases |rs|
  {
    if |rs| == 0 then Ok([])
    else
      var n := |rs| - 1;
      match Entries(p, rs[..n], ephs, cek, senderPriv, hdr)
      case Err(e) => Err(e)
      case Ok(front) =>
        match Entry(p, rs[n], ephs[n], cek, senderPriv, hdr)
        case Err(e) => Err(e)
        case Ok(last) => Ok(front + [last])
  }

  function Sealed(p: Prims, protected: Text, entries: seq<JweRecipient>, cek: seq<byte>, iv: seq<byte>,
                  msg: seq<byte>): Envelope
    requires |p.seal(cek, iv, msg, protected)| >= OVERHEAD
  {
    var sealed := p.seal(cek, iv, msg, protected);
    var off := |sealed| - OVERHEAD;
    Envelope(protected, entries, p.b64(iv), p.b64(sealed[..off]), p.b64(sealed[off..]))
  }

  ghost function Pack(p: Prims, msg: seq<byte>, recipients: seq<Recipient>, senderKid: Text,
                      senderPriv: Option<seq<byte>>,
                      cek: seq<byte>, ephs: seq<seq<byte>>, iv: seq<byte>): Result<seq<byte>, Error>
    requires Lawful(p) && |recipients| <= |ephs| && |cek| == 32 && |iv| == NONCE
  {
    if |recipients| == 0 then Err(NoRecipients)
    else
      var hdr := MakeHeader(p, recipients, senderKid, senderPriv);
      match Entries(p, recipients, ephs, cek, senderPriv, hdr)
      case Err(e) => Err(e)
      case Ok(entries) => Ok(p.envelopeJson(Sealed(p, p.b64(p.headerJson(hdr)), entries, cek, iv, msg)))
  }

  /** A recipient gets an entry exactly when both key agreements succeed. */
  lemma EntryMadeIff(p: Prims, r: Recipient, eph: seq<byte>, cek: seq<byte>, senderPriv: Option<seq<byte>>,
                     recipients: seq<Recipient>, senderKid: Text)
    requires Lawful(p) && |cek| == 32
    ensures Entry(p, r, eph, cek, senderPriv, MakeHeader(p, recipients, senderKid, senderPriv)).Ok? <==>
            p.x25519(eph, p.basepoint).Some? && Secrets(p, Sending(eph, senderPriv, senderKid, r.pub, recipients)).Some?
  {
    hide Lawful, MakeHeader, SenderKek, Secrets, KW.WrapPass;
    KekIsHashed(p, Sending(eph, senderPriv, senderKid, r.pub, recipients));
    KekLength(p, eph, senderPriv, r.pub, MakeHeader(p, recipients, senderKid, senderPriv));
  }

  /** The key agreements for recipient i succeed. */
  ghost predicate Agreed(p: Prims, recipients: seq<Recipient>, ephs: seq<seq<byte>>, senderKid: Text,
                         senderPriv: Option<seq<byte>>, i: nat)
    requires i < |recipients| <= |ephs|
  {
    && p.x25519(ephs[i], p.basepoint).Some?
    && Secrets(p, Sending(ephs[i], senderPriv, senderKid, recipients[i].pub, recipients)).Some?
  }

  lemma {:induction false} EntriesMadeIff(p: Prims, recipients: seq<Recipient>, ephs: seq<seq<byte>>, cek: seq<byte>,
                                          senderPriv: Option<seq<byte>>, senderKid: Text, k: nat)
    requires Lawful(p) && |cek| == 32 && k <= |recipients| <= |ephs|
    ensures Entries(p, recipients[..k], ephs, cek, senderPriv, MakeHeader(p, recipients, senderKid, senderPriv)).Ok?
       <==> forall i :: 0 <= i < k ==> Agreed(p, recipients, ephs, senderKid, senderPriv, i)
    decreases k
  {
    hide Lawful, MakeHeader, Entry, Secrets;
    if k > 0 {
      EntriesMadeIff(p, recipients, ephs, cek, senderPriv, senderKid, k - 1);
      assert recipients[..k][..k - 1] == recipients[..k - 1];
      EntryMadeIff(p, recipients[k - 1], ephs[k - 1], cek, senderPriv, recipients, senderKid);
      assert Agreed(p, recipients, ephs, senderKid, senderPriv, k - 1)
        <==> Entry(p, recipients[k - 1], ephs[k - 1], cek, senderPriv,
                   MakeHeader(p, recipients, senderKid, senderPriv)).Ok?;
      hide Agreed;
      assert (forall i :: 0 <= i < k ==> Agreed(p, recipients, ephs, senderKid, senderPriv, i))
        <==> (forall i :: 0 <= i < k - 1 ==> Agreed(p, recipients, ephs, senderKid, senderPriv, i))
             && Agreed(p, recipients, ephs, senderKid, senderPriv, k - 1);
    }
  }

  /** Packing succeeds exactly when there is a recipient and every key agreement succeeds. */
  lemma PackSucceedsIff(p: Prims, msg: seq<byte>, recipients: seq<Recipient>, senderKid: Text,
                        senderPriv: Option<seq<byte>>, cek: seq<byte>, ephs: seq<seq<byte>>, iv: seq<byte>)
    requires Lawful(p) && |recipients| <= |ephs| && |cek| == 32 && |iv| == NONCE
    ensures Pack(p, msg, recipients, senderKid, senderPriv, cek, ephs, iv).Ok? <==>
            |recipients| > 0
            && forall i :: 0 <= i < |recipients| ==> Agreed(p, recipients, ephs, senderKid, senderPriv, i)
  {
    hide Lawful, MakeHeader, Entries, Agreed, Sealed;
    EntriesMadeIff(p, recipients, ephs, cek, senderPriv, senderKid, |recipients|);
    assert recipients[..|recipients|] == recipients;
  }

  // ----- unpacking -----

  type KeyFn = Text -> Option<seq<byte>>

  const ZERO_KEY: seq<byte> := seq(32, _ => 0)

  /** The content key, if this entry is for a key we hold and unwraps under it. */
  ghost function TryEntry(p: Prims, r: JweRecipient, hdr: Header, recipKey: KeyFn,
                          senderPub: seq<byte>): Option<seq<byte>>
    requires Lawful(p)
  {
    match (recipKey(r.kid), r.epk)
    case (Some(priv), Some(x)) =>
      (match p.unb64(x)
       case None => None
       case Some(ephPub) =>
         if |ephPub| != 32 then None
         else
           match (RecipientKek(p, ephPub, priv, senderPub, hdr), p.unb64(r.encryptedKey))
           case (Some(kek), Some(encKey)) =>
             (match KW.Unwrap(p.cipher, kek, encKey)
              case Err(_) => None
              case Ok(cek) => if |cek| != 32 then None else Some(cek))
           case _ => None)
    case _ => None
  }

  ghost function FindCek(p: Prims, rs: seq<JweRecipient>, hdr: Header, recipKey: KeyFn,
                         senderPub: seq<byte>): Option<seq<byte>>
    requires Lawful(p)
    decreases |rs|
  {
    if |rs| == 0 then None
    else
      match TryEntry(p, rs[0], hdr, recipKey, senderPub)
      case Some(cek) => Some(cek)
      case None => FindCek(p, rs[1..], hdr, recipKey, senderPub)
  }

  ghost function OpenContent(p: Prims, env: Envelope, cek: seq<byte>, skid: Text): Result<(seq<byte>, Text), Error> {
    match p.unb64(env.iv)
    case None => Err(BadIv)
    case Some(iv) =>
      match p.unb64(env.ciphertext)
      case None => Err(BadCiphertext)
      case Some(ct) =>
        match p.unb64(env.tag)
        case None => Err(BadTag)
        case Some(tag) =>
          if |iv| != NONCE then Err(NoncePanic)
          else
            match p.open(cek, iv, ct + tag, env.protected)
            case None => Err(DecryptFailed)
            case Some(plaintext) => Ok((plaintext, skid))
  }

  function SenderKey(hdr: Header, senderKey: Option<KeyFn>): Result<seq<byte>, Error> {
    if hdr.skid == [] then Ok(ZERO_KEY)
    else
      match senderKey
      case None => Err(NeedSenderKey)
      case Some(f) =>
        match f(hdr.skid)
        case None => Err(UnknownSender)
        case Some(pub) => Ok(pub)
  }

  function ParseProtected(p: Prims, protected: Text): Option<Header> {
    match p.unb64(protected)
    case None => None
    case Some(json) => p.parseHeader(json)
  }

  ghost function Unpacked(p: Prims, envelope: seq<byte>, recipKey: KeyFn,
                          senderKey: Option<KeyFn>): Result<(seq<byte>, Text), Error>
    requires Lawful(p)
  {
    match p.parseEnvelope(envelope)
    case None => Err(BadEnvelope)
    case Some(env) =>
      match ParseProtected(p, env.protected)
      case None => Err(BadHeader)
      case Some(hdr) =>
        match SenderKey(hdr, senderKey)
        case Err(e) => Err(e)
        case Ok(senderPub) =>
          match FindCek(p, env.recipients, hdr, recipKey, senderPub)
          case None => Err(NoMatchingRecipient)
          case Some(cek) => OpenContent(p, env, cek, hdr.skid)
  }

  // ----- the round trip -----

  /** The recipient's key function returns only private keys that match the recipients' public keys. */
  ghost predicate KeysMatch(p: Prims, recipients: seq<Recipient>, recipKey: KeyFn) {
    forall i :: 0 <= i < |recipients| && recipKey(recipients[i].kid).Some? ==>
      KeyPair(p, recipKey(recipients[i].kid).value, recipients[i].pub)
  }

  predicate Holds(recipients: seq<Recipient>, recipKey: KeyFn) {
    exists i :: 0 <= i < |recipients| && recipKey(recipients[i].kid).Some?
  }

  /** A sender with an identifier resolves, under the identifier as JSON carries it, to its public key. */
  ghost predicate SenderResolves(p: Prims, senderKid: Text, senderPriv: Option<seq<byte>>, senderKey: Option<KeyFn>,
                                 senderPub: seq<byte>) {
    senderPriv.Some? && senderKid != [] ==>
      && senderKey.Some? && senderKey.value(p.coerce(senderKid)) == Some(senderPub)
      && KeyPair(p, senderPriv.value, senderPub)
  }

  lemma EntryOpens(p: Prims, recipients: seq<Recipient>, i: nat, eph: seq<byte>, cek: seq<byte>, senderKid: Text,
                   senderPriv: Option<seq<byte>>, senderPub: seq<byte>, recipKey: KeyFn, entry: JweRecipient)
    requires Lawful(p) && i < |recipients| && |cek| == 32
    requires KeysMatch(p, recipients, recipKey)
    requires senderPriv.Some? ==> KeyPair(p, senderPriv.value, senderPub)
    requires Entry(p, recipients[i], eph, cek, senderPriv,
                   MakeHeader(p, recipients, senderKid, senderPriv)) == Ok(entry)
    ensures TryEntry(p, entry, MakeHeader(p, recipients, senderKid, senderPriv), recipKey, senderPub)
         == if recipKey(recipients[i].kid).Some? then Some(cek) else None
  {
    hide MakeHeader, SenderKek, RecipientKek, KW.Wrap, KW.Unwrap;
    var r := recipients[i];
    if recipKey(r.kid).Some? {
      var priv := recipKey(r.kid).value;
      var ephPub := p.x25519(eph, p.basepoint).value;
      var hdr := MakeHeader(p, recipients, senderKid, senderPriv);
      KeksAgree(p, eph, ephPub, priv, r.pub, senderPriv, senderPub, recipients, senderKid);
      var kek := SenderKek(p, eph, senderPriv, r.pub, hdr).value;
      var wrapped := KW.Wrap(p.cipher, kek, cek).value;
      KekLength(p, eph, senderPriv, r.pub, hdr);
      KW.UnwrapAcceptsExactly(p.cipher, kek, wrapped, cek);
      assert p.unb64(p.b64(ephPub)) == Some(ephPub);
      assert p.unb64(p.b64(wrapped)) == Some(wrapped);
    }
  }

  lemma KekLength(p: Prims, eph: seq<byte>, senderPriv: Option<seq<byte>>, recipPub: seq<byte>, hdr: Header)
    requires Lawful(p)
    ensures var kek := SenderKek(p, eph, senderPriv, recipPub, hdr); kek.Some? ==> KW.ValidKey(kek.value)
  {
    hide KW.IsBlockCipher, Agreement, Coercion, CleanHeader, CleanEnvelope, Party, BigEndian;
  }

  lemma {:induction false} EntryAt(p: Prims, rs: seq<Recipient>, ephs: seq<seq<byte>>, cek: seq<byte>,
                                   senderPriv: Option<seq<byte>>, hdr: Header, i: nat)
    requires Lawful(p) && i < |rs| <= |ephs|
    requires Entries(p, rs, ephs, cek, senderPriv, hdr).Ok?
    ensures Entry(p, rs[i], ephs[i], cek, senderPriv, hdr) == Ok(Entries(p, rs, ephs, cek, senderPriv, hdr).value[i])
    decreases |rs|
  {
    hide Entry;
    if i < |rs| - 1 {
      EntryAt(p, rs[..|rs| - 1], ephs, cek, senderPriv, hdr, i);
    }
  }

  /** Scanning the entries finds the content key exactly when some recipient key is held. */
  lemma {:induction false} ScanFindsCek(p: Prims, recipients: seq<Recipient>, ephs: seq<seq<byte>>, cek: seq<byte>,
                                        senderKid: Text, senderPriv: Option<seq<byte>>, senderPub: seq<byte>,
                                        recipKey: KeyFn,
                                        entries: seq<JweRecipient>, k: nat)
    requires Lawful(p) && |cek| == 32 && |recipients| <= |ephs| && KeysMatch(p, recipients, recipKey)
    requires senderPriv.Some? ==> KeyPair(p, senderPriv.value, senderPub)
    requires Entries(p, recipients, ephs, cek, senderPriv,
                     MakeHeader(p, recipients, senderKid, senderPriv)) == Ok(entries)
    requires k <= |recipients|
    ensures FindCek(p, entries[k..], MakeHeader(p, recipients, senderKid, senderPriv), recipKey, senderPub)
         == if Holds(recipients[k..], recipKey) then Some(cek) else None
    decreases |recipients| - k
  {
    hide MakeHeader, TryEntry, Entry, Entries;
    var hdr := MakeHeader(p, recipients, senderKid, senderPriv);
    if k < |recipients| {
      EntryAt(p, recipients, ephs, cek, senderPriv, hdr, k);
      EntryOpens(p, recipients, k, ephs[k], cek, senderKid, senderPriv, senderPub, recipKey, entries[k]);
      ScanFindsCek(p, recipients, ephs, cek, senderKid, senderPriv, senderPub, recipKey, entries, k + 1);
      assert entries[k..][1..] == entries[k + 1..];
      HoldsStep(recipients[k..], recipKey);
      assert recipients[k..][1..] == recipients[k + 1..];
    }
  }

  lemma HoldsStep(rs: seq<Recipient>, recipKey: KeyFn)
    requires |rs| > 0
    ensures Holds(rs, recipKey) <==> recipKey(rs[0].kid).Some? || Holds(rs[1..], recipKey)
  {
    if Holds(rs[1..], recipKey) {
      var i :| 0 <= i < |rs[1..]| && recipKey(rs[1..][i].kid).Some?;
      assert recipKey(rs[i + 1].kid).Some?;
    }
    if Holds(rs, recipKey) && !recipKey(rs[0].kid).Some? {
      var i :| 0 <= i < |rs| && recipKey(rs[i].kid).Some?;
      assert recipKey(rs[1..][i - 1].kid).Some?;
    }
  }

  lemma ContentOpens(p: Prims, protected: Text, entries: seq<JweRecipient>, cek: seq<byte>, iv: seq<byte>,
                     msg: seq<byte>, skid: Text)
    requires Lawful(p) && |cek| == 32 && |iv| == NONCE
    ensures |p.seal(cek, iv, msg, protected)| >= OVERHEAD
    ensures OpenContent(p, Sealed(p, protected, entries, cek, iv, msg), cek, skid) == Ok((msg, skid))
  {
    var sealed := p.seal(cek, iv, msg, protected);
    var off := |sealed| - OVERHEAD;
    assert sealed == sealed[..off] + sealed[off..];
    assert p.unb64(p.b64(iv)) == Some(iv);
    assert p.unb64(p.b64(sealed[..off])) == Some(sealed[..off]);
    assert p.unb64(p.b64(sealed[off..])) == Some(sealed[off..]);
  }

  // ----- what is accepted -----

  /** Only what was sealed under key, nonce and associated data opens. */
  ghost predicate Authentic(p: Prims) {
    forall k, n, c, a {:trigger p.open(k, n, c, a)} :: |k| == 32 && |n| == NONCE && p.open(k, n, c, a).Some? ==>
      c == p.seal(k, n, p.open(k, n, c, a).value, a)
  }

  /** The content opens to a message exactly when ciphertext and tag are the sealing of that message under
      the content key and the nonce, with the protected header as associated data. */
  lemma ContentAcceptedIff(p: Prims, env: Envelope, cek: seq<byte>, skid: Text, m: seq<byte>)
    requires Lawful(p) && Authentic(p) && |cek| == 32
    ensures OpenContent(p, env, cek, skid) == Ok((m, skid)) <==>
            && p.unb64(env.iv).Some? && |p.unb64(env.iv).value| == NONCE
            && p.unb64(env.ciphertext).Some? && p.unb64(env.tag).Some?
            && p.unb64(env.ciphertext).value + p.unb64(env.tag).value
               == p.seal(cek, p.unb64(env.iv).value, m, env.protected)
  {
    hide KW.IsBlockCipher, Agreement, Coercion, CleanHeader, CleanEnvelope;
  }

  /** So a changed header is rejected, unless the content is also a sealing under the changed header. */
  lemma HeaderIsBound(p: Prims, protected: Text, entries: seq<JweRecipient>, cek: seq<byte>, iv: seq<byte>,
                      msg: seq<byte>, skid: Text, changed: Text)
    requires Lawful(p) && Authentic(p) && |cek| == 32 && |iv| == NONCE
    requires forall m :: p.seal(cek, iv, m, changed) != p.seal(cek, iv, msg, protected)
    ensures |p.seal(cek, iv, msg, protected)| >= OVERHEAD
    ensures OpenContent(p, Sealed(p, protected, entries, cek, iv, msg).(protected := changed), cek, skid)
         == Err(DecryptFailed)
  {
    hide KW.IsBlockCipher, Agreement, Coercion, CleanHeader, CleanEnvelope;
    var sealed := p.seal(cek, iv, msg, protected);
    assert |sealed| == |msg| + OVERHEAD;
    var off := |sealed| - OVERHEAD;
    assert sealed == sealed[..off] + sealed[off..];
    assert p.unb64(p.b64(iv)) == Some(iv);
    assert p.unb64(p.b64(sealed[..off])) == Some(sealed[..off]);
    assert p.unb64(p.b64(sealed[off..])) == Some(sealed[off..]);
  }

  /** An entry yields a content key exactly when its key is held, its ephemeral key is 32 bytes, and its
      encrypted key is the wrapping of that content key, of 32 bytes, under the agreed key. */
  lemma EntryAcceptedIff(p: Prims, r: JweRecipient, hdr: Header, recipKey: KeyFn, senderPub: seq<byte>, cek: seq<byte>)
    requires Lawful(p)
    ensures TryEntry(p, r, hdr, recipKey, senderPub) == Some(cek) <==>
            && recipKey(r.kid).Some? && r.epk.Some? && |cek| == 32
            && p.unb64(r.epk.value).Some? && |p.unb64(r.epk.value).value| == 32 && p.unb64(r.encryptedKey).Some?
            && var kek := RecipientKek(p, p.unb64(r.epk.value).value, recipKey(r.kid).value, senderPub, hdr);
            && kek.Some? && KW.Wrap(p.cipher, kek.value, cek) == Ok(p.unb64(r.encryptedKey).value)
  {
    hide Agreement, Coercion, RecipientKek, KW.Wrap, KW.Unwrap, KW.IsBlockCipher;
    if recipKey(r.kid).Some? && r.epk.Some? && p.unb64(r.epk.value).Some? && p.unb64(r.encryptedKey).Some? {
      var kek := RecipientKek(p, p.unb64(r.epk.value).value, recipKey(r.kid).value, senderPub, hdr);
      if kek.Some? {
        KW.UnwrapAcceptsExactly(p.cipher, kek.value, p.unb64(r.encryptedKey).value, cek);
      }
    }
  }

  /** Under an algorithm that is neither of the two, nothing opens. */
  lemma UnknownModeOpensNothing(p: Prims, r: JweRecipient, hdr: Header, recipKey: KeyFn, senderPub: seq<byte>)
    requires Lawful(p) && hdr.alg != ANONCRYPT && hdr.alg != AUTHCRYPT
    ensures TryEntry(p, r, hdr, recipKey, senderPub) == None
  {
    hide Lawful, KW.Unwrap, ANONCRYPT, AUTHCRYPT, ConcatKdf;
  }

  /** A named sender who cannot be resolved is an error, whatever else the envelope holds. */
  lemma UnresolvedSenderRejected(p: Prims, envelope: seq<byte>, env: Envelope, hdr: Header, recipKey: KeyFn,
                                 senderKey: Option<KeyFn>)
    requires Lawful(p) && p.parseEnvelope(envelope) == Some(env) && ParseProtected(p, env.protected) == Some(hdr)
    requires hdr.skid != [] && (senderKey.Some? ==> senderKey.value(hdr.skid) == None)
    ensures Unpacked(p, envelope, recipKey, senderKey) == Err(if senderKey.None? then NeedSenderKey else UnknownSender)
  {
    hide Lawful, FindCek, OpenContent, ParseProtected;
  }

  /** Entry i yields the content key, and no entry before it yields any. */
  ghost predicate FirstAt(p: Prims, rs: seq<JweRecipient>, hdr: Header, recipKey: KeyFn, senderPub: seq<byte>,
                          cek: seq<byte>, i: int)
    requires Lawful(p)
  {
    && 0 <= i < |rs| && TryEntry(p, rs[i], hdr, recipKey, senderPub) == Some(cek)
    && forall j :: 0 <= j < i ==> TryEntry(p, rs[j], hdr, recipKey, senderPub) == None
  }

  /** The scan returns the key of the first entry that opens. */
  lemma {:induction false} ScanFindsFirst(p: Prims, rs: seq<JweRecipient>, hdr: Header, recipKey: KeyFn,
                                          senderPub: seq<byte>, cek: seq<byte>)
    requires Lawful(p)
    ensures FindCek(p, rs, hdr, recipKey, senderPub) == Some(cek)
       <==> exists i :: FirstAt(p, rs, hdr, recipKey, senderPub, cek, i)
    decreases |rs|
  {
    hide Lawful, TryEntry;
    if |rs| > 0 {
      var rest := rs[1..];
      ScanFindsFirst(p, rest, hdr, recipKey, senderPub, cek);
      if TryEntry(p, rs[0], hdr, recipKey, senderPub) == None {
        if i :| FirstAt(p, rest, hdr, recipKey, senderPub, cek, i) {
          FirstAtStep(p, rs, hdr, recipKey, senderPub, cek, i);
        }
        if i :| FirstAt(p, rs, hdr, recipKey, senderPub, cek, i) {
          FirstAtStep(p, rs, hdr, recipKey, senderPub, cek, i - 1);
        }
      } else {
        if TryEntry(p, rs[0], hdr, recipKey, senderPub) == Some(cek) {
          assert FirstAt(p, rs, hdr, recipKey, senderPub, cek, 0);
        }
      }
    }
  }

  lemma FirstAtStep(p: Prims, rs: seq<JweRecipient>, hdr: Header, recipKey: KeyFn, senderPub: seq<byte>, cek: seq<byte>,
                    i: int)
    requires Lawful(p) && |rs| > 0 && TryEntry(p, rs[0], hdr, recipKey, senderPub) == None
    ensures FirstAt(p, rs, hdr, recipKey, senderPub, cek, i + 1)
       <==> FirstAt(p, rs[1..], hdr, recipKey, senderPub, cek, i)
  {
    hide Lawful, TryEntry;
    var rest := rs[1..];
    if FirstAt(p, rs, hdr, recipKey, senderPub, cek, i + 1) {
      forall j | 0 <= j < i ensures TryEntry(p, rest[j], hdr, recipKey, senderPub) == None {
        assert rest[j] == rs[j + 1];
      }
    }
    if FirstAt(p, rest, hdr, recipKey, senderPub, cek, i) {
      forall j | 0 <= j < i + 1 ensures TryEntry(p, rs[j], hdr, recipKey, senderPub) == None {
        assert j > 0 ==> rs[j] == rest[j - 1];
      }
    }
  }

  // ----- what arrives -----

  /** Recipient keys are looked up under the identifiers as JSON carries them. */
  function Through(p: Prims, recipKey: KeyFn): KeyFn {
    kid => recipKey(p.coerce(kid))
  }

  /** Everything but the key identifier is base64 text. */
  ghost predicate Encoded(p: Prims, r: JweRecipient) {
    r.epk.Some? && p.coerce(r.epk.value) == r.epk.value && p.coerce(r.encryptedKey) == r.encryptedKey
  }

  lemma EntryEncoded(p: Prims, r: Recipient, eph: seq<byte>, cek: seq<byte>, senderPriv: Option<seq<byte>>, hdr: Header)
    requires Lawful(p) && Entry(p, r, eph, cek, senderPriv, hdr).Ok?
    ensures Encoded(p, Entry(p, r, eph, cek, senderPriv, hdr).value)
  {
    hide SenderKek, KW.Wrap;
  }

  lemma EntriesEncoded(p: Prims, rs: seq<Recipient>, ephs: seq<seq<byte>>, cek: seq<byte>,
                       senderPriv: Option<seq<byte>>,
                       hdr: Header)
    requires Lawful(p) && |rs| <= |ephs| && Entries(p, rs, ephs, cek, senderPriv, hdr).Ok?
    ensures forall i :: 0 <= i < |rs| ==> Encoded(p, Entries(p, rs, ephs, cek, senderPriv, hdr).value[i])
  {
    hide Lawful, Entry, Entries, Encoded;
    forall i | 0 <= i < |rs| ensures Encoded(p, Entries(p, rs, ephs, cek, senderPriv, hdr).value[i]) {
      EntryAt(p, rs, ephs, cek, senderPriv, hdr, i);
      EntryEncoded(p, rs[i], ephs[i], cek, senderPriv, hdr);
    }
  }

  lemma TryClean(p: Prims, r: JweRecipient, hdr: Header, skid: Text, recipKey: KeyFn, senderPub: seq<byte>)
    requires Lawful(p) && Encoded(p, r)
    ensures TryEntry(p, CleanEntry(p, r), hdr.(skid := skid), recipKey, senderPub)
         == TryEntry(p, r, hdr, Through(p, recipKey), senderPub)
  {
    hide Lawful, KW.Unwrap, ConcatKdf, ANONCRYPT, AUTHCRYPT;
  }

  lemma {:induction false} FindClean(p: Prims, rs: seq<JweRecipient>, hdr: Header, skid: Text, recipKey: KeyFn,
                                     senderPub: seq<byte>)
    requires Lawful(p) && forall i :: 0 <= i < |rs| ==> Encoded(p, rs[i])
    ensures FindCek(p, CleanEntries(p, rs), hdr.(skid := skid), recipKey, senderPub)
         == FindCek(p, rs, hdr, Through(p, recipKey), senderPub)
    decreases |rs|
  {
    hide Lawful, TryEntry, Encoded, CleanEntry, Through;
    if |rs| > 0 {
      TryClean(p, rs[0], hdr, skid, recipKey, senderPub);
      assert CleanEntries(p, rs)[1..] == CleanEntries(p, rs[1..]);
      FindClean(p, rs[1..], hdr, skid, recipKey, senderPub);
    }
  }

  /** The header arrives as it was sent, up to the coercion of the sender identifier. */
  lemma HeaderArrives(p: Prims, recipients: seq<Recipient>, senderKid: Text, senderPriv: Option<seq<byte>>)
    requires Lawful(p)
    ensures var hdr := MakeHeader(p, recipients, senderKid, senderPriv);
      var protected := p.b64(p.headerJson(hdr));
      && p.coerce(protected) == protected
      && ParseProtected(p, protected) == Some(hdr.(skid := p.coerce(hdr.skid)))
  {
    hide KW.IsBlockCipher, Agreement, MEDIA_TYPE, XC20P, ANONCRYPT, AUTHCRYPT;
    var hdr := MakeHeader(p, recipients, senderKid, senderPriv);
    assert p.unb64(p.b64(p.headerJson(hdr))) == Some(p.headerJson(hdr));
    var apv := p.sha256(Join(Sort(Kids(recipients))));
    assert hdr.apv == p.b64(apv) && p.coerce(p.b64(apv)) == p.b64(apv);
    assert p.coerce(p.b64(senderKid)) == p.b64(senderKid);
    assert p.coerce([]) == [];
  }

  lemma EnvelopeArrives(p: Prims, protected: Text, entries: seq<JweRecipient>, cek: seq<byte>, iv: seq<byte>,
                        msg: seq<byte>)
    requires Lawful(p) && |cek| == 32 && |iv| == NONCE && p.coerce(protected) == protected
    ensures |p.seal(cek, iv, msg, protected)| >= OVERHEAD
    ensures p.parseEnvelope(p.envelopeJson(Sealed(p, protected, entries, cek, iv, msg)))
         == Some(Sealed(p, protected, CleanEntries(p, entries), cek, iv, msg))
  {
    hide KW.IsBlockCipher, Agreement, CleanEntries;
    var env := Sealed(p, protected, entries, cek, iv, msg);
    assert p.parseEnvelope(p.envelopeJson(env)) == Some(CleanEnvelope(p, env));
  }

  /** What the receiver does with a packed envelope: agree with the resolved sender, or with the zero point
      if the header names none, and scan the entries. */
  lemma UnpackedPack(p: Prims, msg: seq<byte>, recipients: seq<Recipient>, senderKid: Text,
                     senderPriv: Option<seq<byte>>,
                     cek: seq<byte>, ephs: seq<seq<byte>>, iv: seq<byte>, recipKey: KeyFn, senderKey: Option<KeyFn>)
    requires Lawful(p) && |recipients| <= |ephs| && |cek| == 32 && |iv| == NONCE
    requires Pack(p, msg, recipients, senderKid, senderPriv, cek, ephs, iv).Ok?
    ensures var hdr := MakeHeader(p, recipients, senderKid, senderPriv);
      var entries := Entries(p, recipients, ephs, cek, senderPriv, hdr);
      var skid := p.coerce(hdr.skid);
      && entries.Ok?
      && var r := Unpacked(p, Pack(p, msg, recipients, senderKid, senderPriv, cek, ephs, iv).value,
                            recipKey, senderKey);
         match SenderKey(hdr.(skid := skid), senderKey)
         case Err(e) => r == Err(e)
         case Ok(pub) =>
           var found := FindCek(p, entries.value, hdr, Through(p, recipKey), pub);
           (found == Some(cek) ==> r == Ok((msg, skid))) && (found.None? ==> r == Err(NoMatchingRecipient))
  {
    hide Lawful, Entries, FindCek, OpenContent, Sealed, MakeHeader, ParseProtected, SenderKey, Through, CleanEntries,
      Encoded, ANONCRYPT, AUTHCRYPT, MEDIA_TYPE, XC20P, ZERO_KEY;
    var hdr := MakeHeader(p, recipients, senderKid, senderPriv);
    var protected := p.b64(p.headerJson(hdr));
    var entries := Entries(p, recipients, ephs, cek, senderPriv, hdr).value;
    HeaderArrives(p, recipients, senderKid, senderPriv);
    EnvelopeArrives(p, protected, entries, cek, iv, msg);
    ContentOpens(p, protected, CleanEntries(p, entries), cek, iv, msg, p.coerce(hdr.skid));
    SealedFields(p, protected, CleanEntries(p, entries), cek, iv, msg);
    EntriesEncoded(p, recipients, ephs, cek, senderPriv, hdr);
    var sender := SenderKey(hdr.(skid := p.coerce(hdr.skid)), senderKey);
    if sender.Ok? {
      FindClean(p, entries, hdr, p.coerce(hdr.skid), recipKey, sender.value);
    }
  }

  /** Unpacking a packed envelope returns the message and the sender's identifier exactly when some
      recipient's key is held and, in authcrypt, the sender has an identifier; otherwise no recipient
      matches. Without an identifier the receiver agrees keys with the all-zero point, which X25519
      rejects. */
  lemma UnpackUndoesPack(p: Prims, msg: seq<byte>, recipients: seq<Recipient>, senderKid: Text,
                         senderPriv: Option<seq<byte>>,
                         cek: seq<byte>, ephs: seq<seq<byte>>, iv: seq<byte>, recipKey: KeyFn, senderKey: Option<KeyFn>,
                         senderPub: seq<byte>)
    requires Lawful(p) && |recipients| <= |ephs| && |cek| == 32 && |iv| == NONCE
    requires forall a :: p.x25519(a, ZERO_KEY) == None
    requires Pack(p, msg, recipients, senderKid, senderPriv, cek, ephs, iv).Ok?
    requires KeysMatch(p, recipients, Through(p, recipKey))
    requires SenderResolves(p, senderKid, senderPriv, senderKey, senderPub)
    ensures Unpacked(p, Pack(p, msg, recipients, senderKid, senderPriv, cek, ephs, iv).value, recipKey, senderKey)
         == if Holds(recipients, Through(p, recipKey)) && (senderPriv.Some? ==> senderKid != [])
            then Ok((msg, if senderPriv.Some? then p.coerce(senderKid) else []))
            else Err(NoMatchingRecipient)
  {
    hide Lawful, Entries, FindCek, Unpacked, Pack, Through, Apv, ANONCRYPT, AUTHCRYPT, MEDIA_TYPE, XC20P, ZERO_KEY;
    var hdr := MakeHeader(p, recipients, senderKid, senderPriv);
    UnpackedPack(p, msg, recipients, senderKid, senderPriv, cek, ephs, iv, recipKey, senderKey);
    var entries := Entries(p, recipients, ephs, cek, senderPriv, hdr).value;
    CoercedEmpty(p, hdr.skid);
    if senderPriv.Some? && senderKid == [] {
      NothingFound(p, entries, hdr, Through(p, recipKey));
    } else {
      var pub := if senderPriv.Some? then senderPub else ZERO_KEY;
      ScanFindsCek(p, recipients, ephs, cek, senderKid, senderPriv, pub, Through(p, recipKey), entries, 0);
      assert entries[0..] == entries && recipients[0..] == recipients;
    }
  }

  lemma CoercedEmpty(p: Prims, s: Text)
    requires Lawful(p)
    ensures p.coerce(s) == [] <==> s == []
  {
    hide KW.IsBlockCipher, Agreement;
  }

  lemma SealedFields(p: Prims, protected: Text, entries: seq<JweRecipient>, cek: seq<byte>, iv: seq<byte>,
                     msg: seq<byte>)
    requires |p.seal(cek, iv, msg, protected)| >= OVERHEAD
    ensures Sealed(p, protected, entries, cek, iv, msg).protected == protected
    ensures Sealed(p, protected, entries, cek, iv, msg).recipients == entries
  {}

  /** Authcrypt with an empty sender identifier never unpacks, whatever keys are held. */
  lemma NamelessSenderNeverUnpacks(p: Prims, msg: seq<byte>, recipients: seq<Recipient>, senderPriv: Option<seq<byte>>,
                                   cek: seq<byte>, ephs: seq<seq<byte>>, iv: seq<byte>, recipKey: KeyFn,
                                   senderKey: Option<KeyFn>)
    requires Lawful(p) && |recipients| <= |ephs| && |cek| == 32 && |iv| == NONCE && senderPriv.Some?
    requires forall a :: p.x25519(a, ZERO_KEY) == None
    requires Pack(p, msg, recipients, [], senderPriv, cek, ephs, iv).Ok?
    ensures Unpacked(p, Pack(p, msg, recipients, [], senderPriv, cek, ephs, iv).value, recipKey, senderKey)
         == Err(NoMatchingRecipient)
  {
    hide Lawful, Entries, FindCek, Unpacked, Pack, Through, Apv, ANONCRYPT, AUTHCRYPT, MEDIA_TYPE, XC20P, ZERO_KEY;
    var hdr := MakeHeader(p, recipients, [], senderPriv);
    UnpackedPack(p, msg, recipients, [], senderPriv, cek, ephs, iv, recipKey, senderKey);
    CoercedEmpty(p, hdr.skid);
    NothingFound(p, Entries(p, recipients, ephs, cek, senderPriv, hdr).value, hdr, Through(p, recipKey));
  }

  lemma {:induction false} NothingFound(p: Prims, rs: seq<JweRecipient>, hdr: Header, recipKey: KeyFn)
    requires Lawful(p) && hdr.alg == AUTHCRYPT
    requires forall a :: p.x25519(a, ZERO_KEY) == None
    ensures FindCek(p, rs, hdr, recipKey, ZERO_KEY) == None
    decreases |rs|
  {
    hide KW.Unwrap, ConcatKdf, Ascii;
    AlgorithmsDiffer();
    if |rs| > 0 {
      NothingFound(p, rs[1..], hdr, recipKey);
    }
  }

  // ----- the loops -----

  /** didcomm.go:479-489 */
  method ComputeApv(p: Prims, sortedKids: seq<Text>) returns (h: seq<byte>)
    ensures h == p.sha256(Join(sortedKids))
  {
    var joined: Text := [];
    for i := 0 to |sortedKids|
      invariant joined == Join(sortedKids[..i])
    {
      assert sortedKids[..i + 1][..i] == sortedKids[..i];
      if i > 0 {
        joined := joined + DOT;
      }
      joined := joined + sortedKids[i];
    }
    assert sortedKids[..|sortedKids|] == sortedKids;
    h := p.sha256(joined);
  }

  /** didcomm.go:119-216; the content key, ephemeral scalars and nonce are the random draws. */
  method PackEnvelope(p: Prims, msg: seq<byte>, recipients: seq<Recipient>, senderKid: Text,
                      senderPriv: Option<seq<byte>>,
                      cek: seq<byte>, ephs: seq<seq<byte>>, iv: seq<byte>) returns (r: Result<seq<byte>, Error>)
    requires Lawful(p) && |recipients| <= |ephs| && |cek| == 32 && |iv| == NONCE
    ensures r == Pack(p, msg, recipients, senderKid, senderPriv, cek, ephs, iv)
  {
    hide Ascii, Entries, Sealed;
    if |recipients| == 0 {
      return Err(NoRecipients);
    }
    var kids := Sort(Kids(recipients));
    var apvRaw := ComputeApv(p, kids);
    var apv := p.b64(apvRaw);
    var hdr := Header(MEDIA_TYPE, ANONCRYPT, XC20P, [], [], apv);
    if senderPriv.Some? {
      hdr := hdr.(alg := AUTHCRYPT, skid := senderKid, apu := p.b64(senderKid));
    }
    assert hdr == MakeHeader(p, recipients, senderKid, senderPriv);
    var protected := p.b64(p.headerJson(hdr));
    var entries := WrapForAll(p, recipients, ephs, cek, senderPriv, hdr);
    if entries.Err? {
      return Err(entries.error);
    }
    assert |p.seal(cek, iv, msg, protected)| >= OVERHEAD;
    r := Ok(p.envelopeJson(Sealed(p, protected, entries.value, cek, iv, msg)));
  }

  /** didcomm.go:160-193 */
  method WrapForAll(p: Prims, recipients: seq<Recipient>, ephs: seq<seq<byte>>, cek: seq<byte>,
                    senderPriv: Option<seq<byte>>, hdr: Header)
    returns (r: Result<seq<JweRecipient>, Error>)
    requires Lawful(p) && |recipients| <= |ephs|
    ensures r == Entries(p, recipients, ephs, cek, senderPriv, hdr)
  {
    hide Entry, Lawful;
    var entries: seq<JweRecipient> := [];
    for i := 0 to |recipients|
      invariant Entries(p, recipients[..i], ephs, cek, senderPriv, hdr) == Ok(entries)
    {
      assert recipients[..i + 1][..i] == recipients[..i];
      EntriesPrefixFails(p, recipients, ephs, cek, senderPriv, hdr, i + 1);
      var entry := WrapFor(p, recipients[i], ephs[i], cek, senderPriv, hdr);
      if entry.Err? {
        return Err(entry.error);
      }
      entries := entries + [entry.value];
    }
    assert recipients[..|recipients|] == recipients;
    r := Ok(entries);
  }

  /** didcomm.go:162-192 */
  method WrapFor(p: Prims, r: Recipient, eph: seq<byte>, cek: seq<byte>, senderPriv: Option<seq<byte>>, hdr: Header)
    returns (entry: Result<JweRecipient, Error>)
    requires Lawful(p)
    ensures entry == Entry(p, r, eph, cek, senderPriv, hdr)
  {
    hide SenderKek, KW.Wrap;
    var ephPub := p.x25519(eph, p.basepoint);
    if ephPub.None? {
      return Err(EphemeralKey);
    }
    var kek := SenderKek(p, eph, senderPriv, r.pub, hdr);
    if kek.None? {
      return Err(KeyAgreement(r.kid));
    }
    var wrapped := KW.AesKeyWrap(p.cipher, kek.value, cek);
    if wrapped.Err? {
      return Err(KeyWrapFailed(r.kid));
    }
    entry := Ok(JweRecipient(r.kid, Some(p.b64(ephPub.value)), p.b64(wrapped.value)));
  }

  /** The first failing recipient decides the outcome. */
  lemma {:induction false} EntriesPrefixFails(p: Prims, rs: seq<Recipient>, ephs: seq<seq<byte>>, cek: seq<byte>,
                                              senderPriv: Option<seq<byte>>, hdr: Header, k: nat)
    requires Lawful(p) && k <= |rs| <= |ephs|
    ensures Entries(p, rs[..k], ephs, cek, senderPriv, hdr).Err? ==>
              Entries(p, rs, ephs, cek, senderPriv, hdr) == Entries(p, rs[..k], ephs, cek, senderPriv, hdr)
    decreases |rs|
  {
    hide Entry;
    if k < |rs| {
      var n := |rs| - 1;
      EntriesPrefixFails(p, rs[..n], ephs, cek, senderPriv, hdr, k);
      assert rs[..n][..k] == rs[..k];
    } else {
      assert rs[..k] == rs;
    }
  }

  /** didcomm.go:227-333 */
  method Unpack(p: Prims, envelope: seq<byte>, recipKey: KeyFn, senderKey: Option<KeyFn>)
    returns (r: Result<(seq<byte>, Text), Error>)
    requires Lawful(p)
    ensures r == Unpacked(p, envelope, recipKey, senderKey)
  {
    hide RecipientKek, KW.Unwrap;
    var env := p.parseEnvelope(envelope);
    if env.None? {
      return Err(BadEnvelope);
    }
    var hdr := ParseProtected(p, env.value.protected);
    if hdr.None? {
      return Err(BadHeader);
    }
    var sender := SenderKey(hdr.value, senderKey);
    if sender.Err? {
      return Err(sender.error);
    }
    var rs := env.value.recipients;
    var cek: Option<seq<byte>> := None;
    var i := 0;
    while i < |rs| && cek.None?
      invariant 0 <= i <= |rs|
      invariant FindCek(p, rs, hdr.value, recipKey, sender.value)
             == if cek.Some? then cek else FindCek(p, rs[i..], hdr.value, recipKey, sender.value)
      decreases |rs| - i
    {
      assert rs[i..][1..] == rs[i + 1..];
      cek := OpenEntry(p, rs[i], hdr.value, recipKey, sender.value);
      i := i + 1;
    }
    if cek.None? {
      return Err(NoMatchingRecipient);
    }
    var iv := p.unb64(env.value.iv);
    if iv.None? {
      return Err(BadIv);
    }
    var ct := p.unb64(env.value.ciphertext);
    if ct.None? {
      return Err(BadCiphertext);
    }
    var tag := p.unb64(env.value.tag);
    if tag.None? {
      return Err(BadTag);
    }
    if |iv.value| != NONCE {
      return Err(NoncePanic);
    }
    var plaintext := p.open(cek.value, iv.value, ct.value + tag.value, env.value.protected);
    if plaintext.None? {
      return Err(DecryptFailed);
    }
    r := Ok((plaintext.value, hdr.value.skid));
  }

  /** didcomm.go:262-302 */
  method OpenEntry(p: Prims, r: JweRecipient, hdr: Header, recipKey: KeyFn,
                   senderPub: seq<byte>) returns (cek: Option<seq<byte>>)
    requires Lawful(p)
    ensures cek == TryEntry(p, r, hdr, recipKey, senderPub)
  {
    hide RecipientKek, KW.Unwrap;
    var priv := recipKey(r.kid);
    if priv.None? || r.epk.None? {
      return None;
    }
    var ephPub := p.unb64(r.epk.value);
    if ephPub.None? || |ephPub.value| != 32 {
      return None;
    }
    var kek := RecipientKek(p, ephPub.value, priv.value, senderPub, hdr);
    if kek.None? {
      return None;
    }
    var encKey := p.unb64(r.encryptedKey);
    if encKey.None? {
      return None;
    }
    var plain := KW.AesKeyUnwrap(p.cipher, kek.value, encKey.value);
    if plain.Err? || |plain.value| != 32 {
      return None;
    }
    cek := Some(plain.value);
  }
}
