/** Selective-disclosure JWTs (services/identity/pkg/vc/sdjwt.go): issuance, presentation,
    parsing and verification. Signatures, JSON and base64 are parameters with laws. */
module SdJwt {

  import opened Wrappers

  datatype Json = Str(s: string) | Num(n: int) | Arr(items: seq<Json>) | Other(code: int)

  type Payload = map<string, Json>

  datatype Disclosure = Disclosure(salt: string, key: string, value: Json)

  type Key = int

  datatype Prims = Prims(
    encode: Disclosure -> string,
    parse: string -> Option<Disclosure>,
    sha: string -> string,
    stable: Json -> bool,
    sign: (Payload, Key, string, string) -> string,
    payload: string -> Option<Payload>,
    verifySig: (string, Key) -> bool,
    public: Key -> Key,
    resolve: string -> Option<Key>,
    holderKey: Payload -> Option<Key>)

  /** JSON numbers are read as 64-bit floats, exact up to 2^53. */
  const EXACT := 0x20_0000_0000_0000

  predicate StablePayload(p: Prims, m: Payload) {
    forall k :: k in m ==> p.stable(m[k])
  }

  /** How often c occurs. */
  function Count(s: string, c: char): nat {
    if |s| == 0 then 0 else (if s[0] == c then 1 else 0) + Count(s[1..], c)
  }

  /** Stable values survive JSON; encoded disclosures are base64url words; a signed JWT is three
      such words joined by dots, carries its payload and verifies under the public key. */
  ghost predicate Lawful(p: Prims) {
    && (forall s :: p.stable(Str(s)))
    && (forall n :: -EXACT <= n <= EXACT ==> p.stable(Num(n)))
    && (forall a: seq<Json> {:trigger p.stable(Arr(a))} ::
          (forall i :: 0 <= i < |a| ==> a[i].Str?) ==> p.stable(Arr(a)))
    && (forall d: Disclosure {:trigger p.encode(d)} :: p.stable(d.value) ==> p.parse(p.encode(d)) == Some(d))
    && (forall s {:trigger p.parse(s)} :: p.parse(s).Some? ==> p.stable(p.parse(s).value.value))
    && (forall d: Disclosure {:trigger p.encode(d)} :: p.encode(d) != "" && '~' !in p.encode(d) && '.' !in p.encode(d))
    && (forall m, k, kid, typ {:trigger p.sign(m, k, kid, typ)} ::
          var jwt := p.sign(m, k, kid, typ);
          && jwt != "" && '~' !in jwt && Count(jwt, '.') == 2
          && p.verifySig(jwt, p.public(k))
          && (StablePayload(p, m) ==> p.payload(jwt) == Some(m)))
  }

  function Digest(p: Prims, d: Disclosure): string {
    p.sha(p.encode(d))
  }

  datatype Token = Token(jwt: string, disclosures: seq<Disclosure>)

  datatype Error = EphemeralIssuer | MissingIssuer | MissingSubject | UnknownSchema
    | EmptyToken | NotSdJwt | BadPayload | NoIssuer | UnknownIssuer | BadSignature | Expired
    | BadDisclosure | Forged | NoHolderKey | KeyBindingFailed | KeyBindingRequired

  // ----- issuance -----

  datatype Options = Options(
    issuer: string, key: Option<Key>, kid: string, subject: string,
    schema: Option<Option<string>>,  // absent, unknown, or known with its versioned id
    selective: map<string, Json>, always: Payload, validFor: int)

  const SECOND := 1_000_000_000
  const DAY := 86400 * SECOND

  function MakeDisclosures(selective: map<string, Json>, order: seq<string>, salts: seq<string>): (ds: seq<Disclosure>)
    requires forall k :: k in order ==> k in selective
    requires |order| <= |salts|
    ensures |ds| == |order|
  {
    seq(|order|, i requires 0 <= i < |order| => Disclosure(salts[i], order[i], selective[order[i]]))
  }

  function Digests(p: Prims, ds: seq<Disclosure>): (r: seq<Json>)
    ensures |r| == |ds|
  {
    seq(|ds|, i requires 0 <= i < |ds| => Str(Digest(p, ds[i])))
  }

  function IssuedPayload(p: Prims, o: Options, ds: seq<Disclosure>, now: int): Payload {
    var lifetime := if o.validFor <= 0 then DAY else o.validFor;
    var base: Payload := map["iss" := Str(o.issuer), "sub" := Str(o.subject),
                             "iat" := Num(now / SECOND), "exp" := Num((now + lifetime) / SECOND),
                             "_sd_alg" := Str("sha-256"), "_sd" := Arr(Digests(p, ds))];
    (if o.schema.Some? && o.schema.value.Some? then base["vct" := Str(o.schema.value.value)] else base) + o.always
  }

  /** `order` is the order in which the selective claims are visited and `salts` the random salts. */
  ghost predicate Visits(o: Options, order: seq<string>) {
    && (forall k :: k in order <==> k in o.selective)
    && (forall i, j :: 0 <= i < j < |order| ==> order[i] != order[j])
  }

  function Issued(p: Prims, o: Options, order: seq<string>, salts: seq<string>, now: int): Result<Token, Error>
    requires Visits(o, order) && |order| <= |salts|
  {
    if "did:key:" <= o.issuer then Err(EphemeralIssuer)
    else if o.issuer == "" || o.key.None? then Err(MissingIssuer)
    else if o.subject == "" then Err(MissingSubject)
    else if o.schema == Some(None) then Err(UnknownSchema)
    else
      var ds := MakeDisclosures(o.selective, order, salts);
      Ok(Token(p.sign(IssuedPayload(p, o, ds, now), o.key.value, o.kid, "vc+sd-jwt"), ds))
  }

  /** Issuance succeeds exactly for a durable issuer with a key, a subject, and no or a known schema. */
  lemma IssuedIff(p: Prims, o: Options, order: seq<string>, salts: seq<string>, now: int)
    requires Visits(o, order) && |order| <= |salts|
    ensures Issued(p, o, order, salts, now).Ok? <==>
            && !(|o.issuer| >= 8 && o.issuer[..8] == "did:key:") && o.issuer != "" && o.key.Some? && o.subject != ""
            && (o.schema.Some? ==> o.schema.value.Some?)
  {
    hide MakeDisclosures, IssuedPayload;
  }

  /** sdjwt.go:189-247 */
  method Issue(p: Prims, o: Options, order: seq<string>, salts: seq<string>, now: int) returns (r: Result<Token, Error>)
    requires Visits(o, order) && |order| <= |salts|
    ensures r == Issued(p, o, order, salts, now)
  {
    if "did:key:" <= o.issuer {
      return Err(EphemeralIssuer);
    }
    if o.issuer == "" || o.key.None? {
      return Err(MissingIssuer);
    }
    if o.subject == "" {
      return Err(MissingSubject);
    }
    var validFor := o.validFor;
    if validFor <= 0 {
      validFor := DAY;
    }
    if o.schema == Some(None) {
      return Err(UnknownSchema);
    }
    ghost var all := MakeDisclosures(o.selective, order, salts);
    var ds: seq<Disclosure> := [];
    var digests: seq<Json> := [];
    for i := 0 to |order|
      invariant ds == all[..i]
      invariant digests == Digests(p, all)[..i]
    {
      var d := Disclosure(salts[i], order[i], o.selective[order[i]]);
      ds := ds + [d];
      digests := digests + [Str(Digest(p, d))];
    }
    assert ds == all && digests == Digests(p, all);
    var payload: Payload := map["iss" := Str(o.issuer), "sub" := Str(o.subject),
                                "iat" := Num(now / SECOND), "exp" := Num((now + validFor) / SECOND),
                                "_sd_alg" := Str("sha-256"), "_sd" := Arr(digests)];
    if o.schema.Some? {
      payload := payload["vct" := Str(o.schema.value.value)];
    }
    payload := payload + o.always;
    r := Ok(Token(p.sign(payload, o.key.value, o.kid, "vc+sd-jwt"), ds));
  }

  // ----- presentation -----

  function Join(parts: seq<string>): string {
    if |parts| == 0 then ""
    else if |parts| == 1 then parts[0]
    else parts[0] + "~" + Join(parts[1..])
  }

  function Encoded(p: Prims, ds: seq<Disclosure>): (r: seq<string>)
    ensures |r| == |ds|
  {
    seq(|ds|, i requires 0 <= i < |ds| => p.encode(ds[i]))
  }

  function SerializeWith(p: Prims, jwt: string, ds: seq<Disclosure>): string {
    Join([jwt] + Encoded(p, ds)) + "~"
  }

  function Selected(ds: seq<Disclosure>, keys: set<string>): seq<Disclosure> {
    if |ds| == 0 then []
    else Selected(ds[..|ds| - 1], keys) + (if ds[|ds| - 1].key in keys then [ds[|ds| - 1]] else [])
  }

  function Presented(p: Prims, t: Token, keys: set<string>): string {
    SerializeWith(p, t.jwt, Selected(t.disclosures, keys))
  }

  /** sdjwt.go:118-130 */
  method Present(p: Prims, t: Token, revealKeys: seq<string>) returns (s: string)
    ensures s == Presented(p, t, set k | k in revealKeys)
  {
    var want: set<string> := {};
    for i := 0 to |revealKeys|
      invariant want == set k | k in revealKeys[..i]
    {
      assert revealKeys[..i + 1] == revealKeys[..i] + [revealKeys[i]];
      want := want + {revealKeys[i]};
    }
    assert revealKeys[..|revealKeys|] == revealKeys;
    var selected: seq<Disclosure> := [];
    for i := 0 to |t.disclosures|
      invariant selected == Selected(t.disclosures[..i], want)
    {
      assert t.disclosures[..i + 1][..i] == t.disclosures[..i];
      if t.disclosures[i].key in want {
        selected := selected + [t.disclosures[i]];
      }
    }
    assert t.disclosures[..|t.disclosures|] == t.disclosures;
    s := SerializeWith(p, t.jwt, selected);
  }

  // ----- parsing -----

  function Split(s: string): (parts: seq<string>)
    ensures |parts| >= 1
  {
    if |s| == 0 then [""]
    else
      var rest := Split(s[1..]);
      if s[0] == '~' then [""] + rest else [[s[0]] + rest[0]] + rest[1..]
  }

  datatype Parsed = Parsed(jwt: string, disclosures: seq<string>, kb: string)

  function Classify(jwt: string, parts: seq<string>): Parsed {
    if |parts| == 0 then Parsed(jwt, [], "")
    else
      var before, part := Classify(jwt, parts[..|parts| - 1]), parts[|parts| - 1];
      if part == "" then before
      else if Count(part, '.') == 2 then before.(kb := part)
      else before.(disclosures := before.disclosures + [part])
  }

  function ParseToken(token: string): Result<Parsed, Error> {
    if token == "" then Err(EmptyToken)
    else
      var parts := Split(token);
      if |parts| < 2 then Err(NotSdJwt) else Ok(Classify(parts[0], parts[1..]))
  }

  /** sdjwt.go:264-285 */
  method ParseSdJwt(token: string) returns (r: Result<Parsed, Error>)
    ensures r == ParseToken(token)
  {
    if token == "" {
      return Err(EmptyToken);
    }
    var parts := Split(token);
    if |parts| < 2 {
      return Err(NotSdJwt);
    }
    var rest := parts[1..];
    var result := Parsed(parts[0], [], "");
    for i := 0 to |rest|
      invariant result == Classify(parts[0], rest[..i])
    {
      assert rest[..i + 1][..i] == rest[..i];
      var part := rest[i];
      if part != "" {
        if Count(part, '.') == 2 {
          result := result.(kb := part);
        } else {
          result := result.(disclosures := result.disclosures + [part]);
        }
      }
    }
    assert rest[..|rest|] == rest;
    r := Ok(result);
  }

  // ----- verification -----

  datatype Verified = Verified(
    issuer: string, subject: string, schema: string, disclosed: map<string, Json>, always: Payload,
    issuedAt: Option<int>, expiresAt: Option<int>, bound: bool)

  /** A numeric claim, in whole seconds. */
  function NumberOf(m: Payload, k: string): Option<int> {
    if k in m && m[k].Num? then Some(m[k].n) else None
  }

  /** The claims that are not the verifier's own. */
  function Visible(m: Payload): Payload {
    map k | k in m && k !in SKIPPED :: m[k]
  }

  function Summary(claims: Payload, disclosed: map<string, Json>, bound: bool): Verified {
    Verified(StringOrEmpty(claims, "iss"), StringOrEmpty(claims, "sub"), StringOrEmpty(claims, "vct"), disclosed,
             Visible(claims), NumberOf(claims, "iat"), NumberOf(claims, "exp"), bound)
  }

  function StringOrEmpty(m: Payload, k: string): string {
    if k in m && m[k].Str? then m[k].s else ""
  }

  function DigestSet(m: Payload): set<string> {
    if "_sd" in m && m["_sd"].Arr? then
      set i | 0 <= i < |m["_sd"].items| && m["_sd"].items[i].Str? :: m["_sd"].items[i].s
    else {}
  }

  /** The claims of the presented disclosures, or the first failure. */
  function Disclosed(p: Prims, digests: set<string>, encs: seq<string>): Result<map<string, Json>, Error> {
    if |encs| == 0 then Ok(map[])
    else
      match Disclosed(p, digests, encs[..|encs| - 1])
      case Err(e) => Err(e)
      case Ok(before) =>
        match p.parse(encs[|encs| - 1])
        case None => Err(BadDisclosure)
        case Some(d) => if Digest(p, d) in digests then Ok(before[d.key := d.value]) else Err(Forged)
  }

  const SKIPPED := {"iss", "sub", "iat", "exp", "_sd", "_sd_alg", "vct", "cnf"}

  /** sdjwt.go:500-529, once a holder key is known. */
  function KeyBound(p: Prims, parsed: Parsed, holder: Key, nonce: string, audience: string): bool {
    match p.payload(parsed.kb)
    case None => false
    case Some(kb) =>
      && (nonce == "" || StringOrEmpty(kb, "nonce") == nonce)
      && (audience == "" || StringOrEmpty(kb, "aud") == audience)
      && StringOrEmpty(kb, "sd_hash") == p.sha(Join([parsed.jwt] + parsed.disclosures) + "~")
      && p.verifySig(parsed.kb, holder)
  }

  function BindingResult(p: Prims, claims: Payload, parsed: Parsed, nonce: string,
                         audience: string): Result<bool, Error> {
    if parsed.kb != "" then
      match p.holderKey(claims)
      case None => Err(NoHolderKey)
      case Some(holder) => if KeyBound(p, parsed, holder, nonce, audience) then Ok(true) else Err(KeyBindingFailed)
    else if nonce != "" || audience != "" then Err(KeyBindingRequired)
    else Ok(false)
  }

  predicate Stale(claims: Payload, now: int) {
    "exp" in claims && claims["exp"].Num? && now / SECOND > claims["exp"].n
  }

  function VerifyParsed(p: Prims, parsed: Parsed, nonce: string, audience: string, now: int): Result<Verified, Error> {
    match p.payload(parsed.jwt)
    case None => Err(BadPayload)
    case Some(claims) =>
      var issuer := StringOrEmpty(claims, "iss");
      if issuer == "" then Err(NoIssuer)
      else
        match p.resolve(issuer)
        case None => Err(UnknownIssuer)
        case Some(pub) =>
          if !p.verifySig(parsed.jwt, pub) then Err(BadSignature)
          else if Stale(claims, now) then Err(Expired)
          else
            match Disclosed(p, DigestSet(claims), parsed.disclosures)
            case Err(e) => Err(e)
            case Ok(disclosed) =>
              match BindingResult(p, claims, parsed, nonce, audience)
              case Err(e) => Err(e)
              case Ok(bound) =>
                Ok(Summary(claims, disclosed, bound))
  }

  function VerifyToken(p: Prims, token: string, nonce: string, audience: string, now: int): Result<Verified, Error> {
    match ParseToken(token)
    case Err(e) => Err(e)
    case Ok(parsed) => VerifyParsed(p, parsed, nonce, audience, now)
  }

  lemma {:induction false} DisclosedStops(p: Prims, digests: set<string>, encs: seq<string>, k: nat)
    requires k <= |encs|
    ensures Disclosed(p, digests, encs[..k]).Err? ==> Disclosed(p, digests, encs) == Disclosed(p, digests, encs[..k])
    decreases |encs|
  {
    if k < |encs| {
      var n := |encs| - 1;
      DisclosedStops(p, digests, encs[..n], k);
      assert encs[..n][..k] == encs[..k];
    } else {
      assert encs[..k] == encs;
    }
  }

  /** sdjwt.go:366-381 */
  method CheckDisclosures(p: Prims, digests: set<string>,
                          encs: seq<string>) returns (r: Result<map<string, Json>, Error>)
    ensures r == Disclosed(p, digests, encs)
  {
    var disclosed: map<string, Json> := map[];
    for i := 0 to |encs|
      invariant Disclosed(p, digests, encs[..i]) == Ok(disclosed)
    {
      assert encs[..i + 1][..i] == encs[..i];
      DisclosedStops(p, digests, encs, i + 1);
      var d := p.parse(encs[i]);
      if d.None? {
        return Err(BadDisclosure);
      }
      var digest := Digest(p, d.value);
      if digest !in digests {
        return Err(Forged);
      }
      disclosed := disclosed[d.value.key := d.value.value];
    }
    assert encs[..|encs|] == encs;
    r := Ok(disclosed);
  }

  /** sdjwt.go:322-425 */
  method Verify(p: Prims, token: string, nonce: string, audience: string, now: int) returns (r: Result<Verified, Error>)
    ensures r == VerifyToken(p, token, nonce, audience, now)
  {
    hide ParseToken, Disclosed, BindingResult, DigestSet;
    var parsed := ParseSdJwt(token);
    if parsed.Err? {
      return Err(parsed.error);
    }
    var raw := p.payload(parsed.value.jwt);
    if raw.None? {
      return Err(BadPayload);
    }
    var claims := raw.value;
    var issuer := StringOrEmpty(claims, "iss");
    if issuer == "" {
      return Err(NoIssuer);
    }
    var pub := p.resolve(issuer);
    if pub.None? {
      return Err(UnknownIssuer);
    }
    if !p.verifySig(parsed.value.jwt, pub.value) {
      return Err(BadSignature);
    }
    if Stale(claims, now) {
      return Err(Expired);
    }
    var disclosed := CheckDisclosures(p, DigestSet(claims), parsed.value.disclosures);
    if disclosed.Err? {
      return Err(disclosed.error);
    }
    var bound := BindingResult(p, claims, parsed.value, nonce, audience);
    if bound.Err? {
      return Err(bound.error);
    }
    var always := Visible(claims);
    var result := Verified(issuer, StringOrEmpty(claims, "sub"), StringOrEmpty(claims, "vct"), disclosed.value, always,
                           None, None, bound.value);
    if "iat" in claims && claims["iat"].Num? {
      result := result.(issuedAt := Some(claims["iat"].n));
    }
    if "exp" in claims && claims["exp"].Num? {
      result := result.(expiresAt := Some(claims["exp"].n));
    }
    r := Ok(result);
  }

  // ----- splitting undoes joining -----

  lemma {:induction false} SplitWord(w: string, rest: string)
    requires '~' !in w
    ensures Split(w + "~" + rest) == [w] + Split(rest)
  {
    if |w| == 0 {
      assert w + "~" + rest == "~" + rest;
    } else {
      SplitWord(w[1..], rest);
      var s := w + "~" + rest;
      assert s[0] == w[0] && s[1..] == w[1..] + "~" + rest;
      assert [w[0]] + w[1..] == w;
    }
  }

  lemma {:induction false} SplitLone(w: string)
    requires '~' !in w
    ensures Split(w) == [w]
  {
    if |w| > 0 {
      SplitLone(w[1..]);
      assert [w[0]] + w[1..] == w;
    }
  }

  lemma {:induction false} SplitJoin(parts: seq<string>, tail: string)
    requires |parts| >= 1
    requires forall i :: 0 <= i < |parts| ==> '~' !in parts[i]
    requires '~' !in tail
    ensures Split(Join(parts) + "~" + tail) == parts + [tail]
  {
    if |parts| == 1 {
      SplitWord(parts[0], tail);
      SplitLone(tail);
    } else {
      SplitJoin(parts[1..], tail);
      var rest := Join(parts[1..]) + "~" + tail;
      assert Join(parts) + "~" + tail == parts[0] + "~" + rest;
      SplitWord(parts[0], rest);
    }
  }

  lemma {:induction false} CountAbsent(s: string, c: char)
    requires c !in s
    ensures Count(s, c) == 0
  {
    if |s| > 0 {
      CountAbsent(s[1..], c);
    }
  }

  lemma {:induction false} ClassifyWords(jwt: string, words: seq<string>)
    requires forall i :: 0 <= i < |words| ==> words[i] != "" && '.' !in words[i]
    ensures Classify(jwt, words) == Parsed(jwt, words, "")
  {
    if |words| > 0 {
      var n := |words| - 1;
      ClassifyWords(jwt, words[..n]);
      CountAbsent(words[n], '.');
    }
  }

  /** A serialized token followed by nothing or by a key-binding JWT is taken apart again. */
  lemma ParseSerialized(p: Prims, jwt: string, ds: seq<Disclosure>, tail: string)
    requires Lawful(p)
    requires jwt != "" && '~' !in jwt
    requires '~' !in tail && (tail == "" || Count(tail, '.') == 2)
    ensures ParseToken(SerializeWith(p, jwt, ds) + tail) == Ok(Parsed(jwt, Encoded(p, ds), tail))
  {
    hide Lawful, Split, Join, Classify, Count;
    var words := Encoded(p, ds);
    var parts := [jwt] + words;
    EncodedWords(p, ds);
    SplitJoin(parts, tail);
    assert SerializeWith(p, jwt, ds) + tail == Join(parts) + "~" + tail;
    ClassifyWords(jwt, words);
    var rest := words + [tail];
    assert (parts + [tail])[1..] == rest;
    ClassifyTail(jwt, words, tail);
  }

  lemma EncodedWords(p: Prims, ds: seq<Disclosure>)
    requires Lawful(p)
    ensures forall e :: e in Encoded(p, ds) ==> e != "" && '~' !in e && '.' !in e
  {
  }

  lemma ClassifyTail(jwt: string, words: seq<string>, tail: string)
    requires Classify(jwt, words) == Parsed(jwt, words, "")
    requires tail == "" || Count(tail, '.') == 2
    ensures Classify(jwt, words + [tail]) == Parsed(jwt, words, tail)
  {
    hide Count;
    var rest := words + [tail];
    assert rest[..|rest| - 1] == words;
  }

  // ----- what a presentation discloses -----

  ghost function KeysOf(ds: seq<Disclosure>): set<string> {
    set i | 0 <= i < |ds| :: ds[i].key
  }

  /** Each disclosure states a claim of `claims`, in a value JSON keeps, and its digest is listed. */
  ghost predicate Backed(p: Prims, ds: seq<Disclosure>, claims: map<string, Json>, digests: set<string>) {
    forall d :: d in ds ==>
      (d.key in claims && d.value == claims[d.key] && p.stable(d.value) && Digest(p, d) in digests)
  }

  lemma KeysOfMore(ds: seq<Disclosure>, d: Disclosure)
    ensures KeysOf(ds + [d]) == KeysOf(ds) + {d.key}
  {
    var more := ds + [d];
    forall k | k in KeysOf(ds) + {d.key} ensures k in KeysOf(more) {
      if k in KeysOf(ds) {
        var i :| 0 <= i < |ds| && ds[i].key == k;
        assert more[i].key == k;
      } else {
        assert more[|ds|].key == k;
      }
    }
  }

  lemma EncodedParses(p: Prims, d: Disclosure)
    requires Lawful(p) && p.stable(d.value)
    ensures p.parse(p.encode(d)) == Some(d)
  {
  }

  lemma {:induction false} DisclosedExactly(p: Prims, ds: seq<Disclosure>, claims: map<string, Json>,
                                            digests: set<string>)
    requires Lawful(p) && Backed(p, ds, claims, digests)
    ensures Disclosed(p, digests, Encoded(p, ds)) == Ok(map k | k in claims && k in KeysOf(ds) :: claims[k])
  {
    hide Lawful, KeysOf;
    var expected := map k | k in claims && k in KeysOf(ds) :: claims[k];
    if |ds| == 0 {
      NoKeys();
      assert expected == map[];
    } else {
      var n, d := |ds| - 1, ds[|ds| - 1];
      DisclosedExactly(p, ds[..n], claims, digests);
      assert Encoded(p, ds)[..n] == Encoded(p, ds[..n]);
      assert d in ds;
      EncodedParses(p, d);
      assert ds == ds[..n] + [d];
      KeysOfMore(ds[..n], d);
      var before := map k | k in claims && k in KeysOf(ds[..n]) :: claims[k];
      assert before[d.key := d.value] == expected;
    }
  }

  lemma NoKeys()
    ensures KeysOf([]) == {}
  {
  }

  lemma {:induction false} SelectedMembers(ds: seq<Disclosure>, keys: set<string>)
    ensures forall d :: d in Selected(ds, keys) <==> d in ds && d.key in keys
  {
    if |ds| > 0 {
      SelectedMembers(ds[..|ds| - 1], keys);
      assert ds == ds[..|ds| - 1] + [ds[|ds| - 1]];
    }
  }

  lemma MemberKey(ds: seq<Disclosure>, k: string)
    ensures k in KeysOf(ds) <==> exists d :: d in ds && d.key == k
  {
    if k in KeysOf(ds) {
      var i :| 0 <= i < |ds| && ds[i].key == k;
      assert ds[i] in ds;
    }
    if d :| d in ds && d.key == k {
      var i :| 0 <= i < |ds| && ds[i] == d;
      assert ds[i].key in KeysOf(ds);
    }
  }

  // ----- issuing, presenting and verifying -----

  /** What verification asks of the issuer: values that JSON keeps, an expiry a JSON number can hold, a
      resolvable key, and no always-visible claim in place of issuer, subject or expiry. */
  ghost predicate WellSigned(p: Prims, o: Options, now: int) {
    && o.key.Some? && p.resolve(o.issuer) == Some(p.public(o.key.value))
    && (forall k :: k in o.selective ==> p.stable(o.selective[k]))
    && StablePayload(p, o.always)
    && "iss" !in o.always && "sub" !in o.always && "exp" !in o.always
    && 0 <= now && Expiry(o, now) <= EXACT
  }

  /** In addition, no always-visible claim in place of the digest list. */
  ghost predicate WellIssued(p: Prims, o: Options, now: int) {
    WellSigned(p, o, now) && "_sd" !in o.always
  }

  function Expiry(o: Options, now: int): int {
    (now + if o.validFor <= 0 then DAY else o.validFor) / SECOND
  }

  lemma PayloadStable(p: Prims, o: Options, ds: seq<Disclosure>, now: int)
    requires Lawful(p) && WellSigned(p, o, now)
    ensures StablePayload(p, IssuedPayload(p, o, ds, now))
  {
    var m := IssuedPayload(p, o, ds, now);
    assert p.stable(Arr(Digests(p, ds)));
    forall k | k in m ensures p.stable(m[k]) {
      if k !in o.always && k == "iat" {
        assert 0 <= now / SECOND <= Expiry(o, now);
      }
    }
  }

  ghost function AllDigests(p: Prims, ds: seq<Disclosure>): set<string> {
    set d | d in ds :: Digest(p, d)
  }

  /** The digests a verifier will find: those of the disclosures, unless a visible claim replaces them. */
  ghost function ListedDigests(p: Prims, o: Options, ds: seq<Disclosure>): set<string> {
    if "_sd" in o.always then DigestSet(o.always) else AllDigests(p, ds)
  }

  lemma IssuedDigests(p: Prims, o: Options, ds: seq<Disclosure>, now: int)
    ensures DigestSet(IssuedPayload(p, o, ds, now)) == ListedDigests(p, o, ds)
  {
    var m := IssuedPayload(p, o, ds, now);
    if "_sd" in o.always {
      assert m["_sd"] == o.always["_sd"];
    } else {
      assert m["_sd"] == Arr(Digests(p, ds));
      forall d | d in ds ensures Digest(p, d) in DigestSet(m) {
        var i :| 0 <= i < |ds| && ds[i] == d;
        assert Digests(p, ds)[i] == Str(Digest(p, d));
      }
    }
  }

  ghost predicate Covers(ds: seq<Disclosure>, claims: map<string, Json>) {
    forall k :: k in claims <==> exists d :: d in ds && d.key == k
  }

  lemma IssuedBacked(p: Prims, o: Options, order: seq<string>, salts: seq<string>, now: int)
    requires Visits(o, order) && |order| <= |salts| && WellSigned(p, o, now)
    ensures var ds := MakeDisclosures(o.selective, order, salts);
      Backed(p, ds, o.selective, AllDigests(p, ds)) && Covers(ds, o.selective)
  {
    var ds := MakeDisclosures(o.selective, order, salts);
    forall k | k in o.selective ensures exists d :: d in ds && d.key == k {
      assert k in order;
      var i :| 0 <= i < |order| && order[i] == k;
      assert ds[i] in ds && ds[i].key == k;
    }
  }

  lemma SelectedBacked(ds: seq<Disclosure>, keys: set<string>, claims: map<string, Json>)
    requires Covers(ds, claims)
    ensures forall k :: k in claims ==> (k in KeysOf(Selected(ds, keys)) <==> k in keys)
  {
    SelectedMembers(ds, keys);
    forall k | k in claims ensures k in KeysOf(Selected(ds, keys)) <==> k in keys {
      MemberKey(Selected(ds, keys), k);
    }
  }

  /** Everything in a signed issuance that verification looks at. */
  lemma SignedFacts(p: Prims, o: Options, ds: seq<Disclosure>, now: int, jwt: string)
    requires Lawful(p) && WellSigned(p, o, now)
    requires jwt == p.sign(IssuedPayload(p, o, ds, now), o.key.value, o.kid, "vc+sd-jwt")
    ensures jwt != "" && '~' !in jwt && p.verifySig(jwt, p.public(o.key.value))
    ensures p.payload(jwt) == Some(IssuedPayload(p, o, ds, now))
  {
    PayloadStable(p, o, ds, now);
    hide Lawful, IssuedPayload, StablePayload;
    SignedVerifies(p, IssuedPayload(p, o, ds, now), o.key.value, o.kid, "vc+sd-jwt");
  }

  lemma SignedVerifies(p: Prims, m: Payload, key: Key, kid: string, typ: string)
    requires Lawful(p) && StablePayload(p, m)
    ensures var jwt := p.sign(m, key, kid, typ);
      && jwt != "" && '~' !in jwt && Count(jwt, '.') == 2
      && p.verifySig(jwt, p.public(key)) && p.payload(jwt) == Some(m)
  {
  }

  lemma IssuedClaims(p: Prims, o: Options, ds: seq<Disclosure>, now: int)
    requires WellSigned(p, o, now)
    ensures var m := IssuedPayload(p, o, ds, now);
      && StringOrEmpty(m, "iss") == o.issuer && StringOrEmpty(m, "sub") == o.subject
      && (forall at :: Stale(m, at) <==> at / SECOND > Expiry(o, now))
      && NumberOf(m, "exp") == Some(Expiry(o, now))
      && NumberOf(m, "iat") == IssueTime(o, now)
      && StringOrEmpty(m, "vct") == SchemaOf(o)
      && ("_sd_alg" !in o.always ==> StringOrEmpty(m, "_sd_alg") == "sha-256")
  {
    hide Digests;
  }

  lemma IssuedVisible(p: Prims, o: Options, ds: seq<Disclosure>, now: int)
    ensures Visible(IssuedPayload(p, o, ds, now)) == Visible(o.always)
  {
    hide Digests;
  }

  /** The credential type, unless a visible claim replaces it. */
  function SchemaOf(o: Options): string {
    if "vct" in o.always then StringOrEmpty(o.always, "vct")
    else if o.schema.Some? && o.schema.value.Some? then o.schema.value.value
    else ""
  }

  /** The issue time, unless a visible claim replaces it. */
  function IssueTime(o: Options, now: int): Option<int> {
    if "iat" in o.always then NumberOf(o.always, "iat") else Some(now / SECOND)
  }

  lemma IssuedFacts(p: Prims, o: Options, order: seq<string>, salts: seq<string>, now: int, t: Token)
    requires Lawful(p) && WellSigned(p, o, now)
    requires Visits(o, order) && |order| <= |salts|
    requires Issued(p, o, order, salts, now) == Ok(t)
    ensures o.issuer != "" && t.disclosures == MakeDisclosures(o.selective, order, salts)
    ensures t.jwt != "" && '~' !in t.jwt && p.verifySig(t.jwt, p.public(o.key.value))
    ensures p.payload(t.jwt) == Some(IssuedPayload(p, o, t.disclosures, now))
  {
    SignedFacts(p, o, MakeDisclosures(o.selective, order, salts), now, t.jwt);
  }

  /** What decides on a presentation of an issued JWT: its age, its disclosures and its key binding. */
  lemma VerifyIssued(p: Prims, o: Options, order: seq<string>, salts: seq<string>, now: int, t: Token, parsed: Parsed,
                     nonce: string, audience: string, at: int)
    requires Lawful(p) && WellSigned(p, o, now)
    requires Visits(o, order) && |order| <= |salts|
    requires Issued(p, o, order, salts, now) == Ok(t) && parsed.jwt == t.jwt
    ensures var r := VerifyParsed(p, parsed, nonce, audience, at);
      var shown := Disclosed(p, ListedDigests(p, o, t.disclosures), parsed.disclosures);
      && (r.Ok? <==> at / SECOND <= Expiry(o, now) && shown.Ok?
                     && BindingResult(p, IssuedPayload(p, o, t.disclosures, now), parsed, nonce, audience).Ok?)
      && (r.Ok? ==> r.value.disclosed == shown.value
                    && Attributed(r.value, o, now) && r.value.bound == (parsed.kb != ""))
  {
    IssuedFacts(p, o, order, salts, now, t);
    IssuedDigests(p, o, t.disclosures, now);
    IssuedClaims(p, o, t.disclosures, now);
    IssuedVisible(p, o, t.disclosures, now);
    hide Lawful, Disclosed, IssuedPayload, Issued, Visits, DigestSet, ListedDigests, MakeDisclosures, Stale,
      StringOrEmpty, KeyBound, Visible, NumberOf, IssueTime, SchemaOf;
  }

  /** The result names the issuer, the subject, the times and the visible claims of the issuance. */
  ghost predicate Attributed(v: Verified, o: Options, now: int) {
    && v.issuer == o.issuer && v.subject == o.subject && v.always == Visible(o.always) && v.schema == SchemaOf(o)
    && v.issuedAt == IssueTime(o, now) && v.expiresAt == Some(Expiry(o, now))
  }

  /** Every disclosure under a named key has its digest in the list the verifier finds. */
  ghost predicate NamedAreListed(p: Prims, o: Options, t: Token, keys: set<string>) {
    forall d :: d in t.disclosures && d.key in keys ==> Digest(p, d) in ListedDigests(p, o, t.disclosures)
  }

  /** sdjwt.go:53-425: what `Present` makes of an issued, unexpired token verifies exactly when the digests
      of the named disclosures are listed; it then discloses exactly the selective claims that were named,
      with the issued values. */
  lemma PresentedVerifiesIff(p: Prims, o: Options, order: seq<string>, salts: seq<string>, now: int, t: Token,
                             keys: set<string>, at: int)
    requires Lawful(p) && WellSigned(p, o, now)
    requires Visits(o, order) && |order| <= |salts|
    requires Issued(p, o, order, salts, now) == Ok(t)
    requires at / SECOND <= Expiry(o, now)
    ensures var r := VerifyToken(p, Presented(p, t, keys), "", "", at);
      && (r.Ok? <==> NamedAreListed(p, o, t, keys))
      && (r.Ok? ==> && r.value.disclosed == (map k | k in o.selective && k in keys :: o.selective[k])
                    && Attributed(r.value, o, now) && !r.value.bound)
  {
    hide Lawful, ParseToken, Disclosed, IssuedPayload, Selected, SerializeWith, ListedDigests, VerifyParsed, Issued,
      WellSigned, Visits, Attributed, NamedAreListed;
    IssuedFacts(p, o, order, salts, now, t);
    DisclosesWhatWasNamed(p, o, order, salts, now, t, keys);
    var shown := Selected(t.disclosures, keys);
    ParseSerialized(p, t.jwt, shown, "");
    var token := Presented(p, t, keys);
    assert token + "" == token;
    VerifyIssued(p, o, order, salts, now, t, Parsed(t.jwt, Encoded(p, shown), ""), "", "", at);
  }

  lemma OwnDigestsListed(p: Prims, o: Options, t: Token, keys: set<string>)
    requires "_sd" !in o.always
    ensures NamedAreListed(p, o, t, keys)
  {
  }

  /** With no visible claim in place of the digest list, every presentation verifies. */
  lemma PresentedVerifies(p: Prims, o: Options, order: seq<string>, salts: seq<string>, now: int, t: Token,
                          keys: set<string>, at: int)
    requires Lawful(p) && WellIssued(p, o, now)
    requires Visits(o, order) && |order| <= |salts|
    requires Issued(p, o, order, salts, now) == Ok(t)
    requires at / SECOND <= Expiry(o, now)
    ensures var r := VerifyToken(p, Presented(p, t, keys), "", "", at);
      && r.Ok?
      && r.value.disclosed == (map k | k in o.selective && k in keys :: o.selective[k])
      && Attributed(r.value, o, now) && !r.value.bound
  {
    hide Lawful, WellSigned, Visits, Issued, VerifyToken, Presented, Attributed, NamedAreListed;
    PresentedVerifiesIff(p, o, order, salts, now, t, keys, at);
    OwnDigestsListed(p, o, t, keys);
  }

  lemma DisclosesWhatWasNamed(p: Prims, o: Options, order: seq<string>, salts: seq<string>, now: int, t: Token,
                              keys: set<string>)
    requires Lawful(p) && WellSigned(p, o, now)
    requires Visits(o, order) && |order| <= |salts|
    requires t.disclosures == MakeDisclosures(o.selective, order, salts)
    ensures var shown := Disclosed(p, ListedDigests(p, o, t.disclosures), Encoded(p, Selected(t.disclosures, keys)));
      && (shown.Ok? <==> NamedAreListed(p, o, t, keys))
      && (shown.Ok? ==> shown.value == (map k | k in o.selective && k in keys :: o.selective[k]))
  {
    hide Lawful, Disclosed, AllDigests, ListedDigests, MakeDisclosures, KeysOf, Covers, Encoded, WellSigned, Selected;
    var ds, digests := Selected(t.disclosures, keys), ListedDigests(p, o, t.disclosures);
    IssuedBacked(p, o, order, salts, now);
    SelectedBacked(t.disclosures, keys, o.selective);
    SelectedMembers(t.disclosures, keys);
    assert forall d :: d in ds ==> p.stable(d.value);
    EncodedAccepted(p, ds, digests);
    assert NamedAreListed(p, o, t, keys) <==> forall d :: d in ds ==> Digest(p, d) in digests;
    if NamedAreListed(p, o, t, keys) {
      assert Backed(p, ds, o.selective, digests);
      DisclosedExactly(p, ds, o.selective, digests);
      assert (map k | k in o.selective && k in KeysOf(ds) :: o.selective[k])
          == (map k | k in o.selective && k in keys :: o.selective[k]);
    }
  }

  /** A disclosure list is accepted exactly when every entry parses and has its digest listed. */
  lemma {:induction false} DisclosedIff(p: Prims, digests: set<string>, encs: seq<string>)
    ensures Disclosed(p, digests, encs).Ok? <==> forall e :: e in encs ==> ListedEntry(p, digests, e)
  {
    if |encs| > 0 {
      var n := |encs| - 1;
      DisclosedIff(p, digests, encs[..n]);
      assert encs == encs[..n] + [encs[n]];
      assert (forall e :: e in encs ==> ListedEntry(p, digests, e))
        <==> (forall e :: e in encs[..n] ==> ListedEntry(p, digests, e)) && ListedEntry(p, digests, encs[n]);
    }
  }

  ghost predicate ListedEntry(p: Prims, digests: set<string>, e: string) {
    p.parse(e).Some? && Digest(p, p.parse(e).value) in digests
  }

  lemma EncodedAccepted(p: Prims, ds: seq<Disclosure>, digests: set<string>)
    requires Lawful(p) && forall d :: d in ds ==> p.stable(d.value)
    ensures Disclosed(p, digests, Encoded(p, ds)).Ok? <==> forall d :: d in ds ==> Digest(p, d) in digests
  {
    hide Lawful, Disclosed;
    var encs := Encoded(p, ds);
    DisclosedIff(p, digests, encs);
    forall i | 0 <= i < |ds| ensures ListedEntry(p, digests, encs[i]) <==> Digest(p, ds[i]) in digests {
      assert ds[i] in ds;
      EncodedParses(p, ds[i]);
    }
    if forall e :: e in encs ==> ListedEntry(p, digests, e) {
      forall d | d in ds ensures Digest(p, d) in digests {
        var i :| 0 <= i < |ds| && ds[i] == d;
        assert encs[i] in encs;
      }
    }
  }

  // ----- nothing else is accepted -----

  /** No presented disclosure has the digest of an issued one without having its encoding. */
  ghost predicate NoCollision(p: Prims, encs: seq<string>, ds: seq<Disclosure>) {
    forall e, d :: e in encs && p.parse(e).Some? && d in ds && Digest(p, p.parse(e).value) == Digest(p, d)
      ==> p.encode(p.parse(e).value) == p.encode(d)
  }

  /** The presented string reads as one of the issued disclosures. */
  ghost predicate ReadsAs(p: Prims, e: string, ds: seq<Disclosure>) {
    p.parse(e).Some? && p.parse(e).value in ds
  }

  lemma {:induction false} AcceptedExactly(p: Prims, encs: seq<string>, ds: seq<Disclosure>, digests: set<string>)
    requires Lawful(p)
    requires digests == AllDigests(p, ds)
    requires forall d :: d in ds ==> p.stable(d.value)
    requires NoCollision(p, encs, ds)
    ensures Disclosed(p, digests, encs).Ok? <==> forall e :: e in encs ==> ReadsAs(p, e, ds)
    ensures Disclosed(p, digests, encs).Ok? ==> forall k :: k in Disclosed(p, digests, encs).value ==>
      exists d :: d in ds && d.key == k && d.value == Disclosed(p, digests, encs).value[k]
  {
    hide Lawful;
    if |encs| > 0 {
      var n, e := |encs| - 1, encs[|encs| - 1];
      AcceptedExactly(p, encs[..n], ds, digests);
      assert encs == encs[..n] + [e];
      assert (forall x :: x in encs ==> ReadsAs(p, x, ds))
        <==> (forall x :: x in encs[..n] ==> ReadsAs(p, x, ds)) && ReadsAs(p, e, ds);
      if p.parse(e).Some? {
        var d := p.parse(e).value;
        SameDigestSameDisclosure(p, e, ds);
        assert Digest(p, d) in digests <==> d in ds;
      }
    }
  }

  lemma SameDigestSameDisclosure(p: Prims, e: string, ds: seq<Disclosure>)
    requires Lawful(p) && p.parse(e).Some?
    requires forall d :: d in ds ==> p.stable(d.value)
    requires NoCollision(p, [e], ds)
    ensures forall d :: d in ds && Digest(p, p.parse(e).value) == Digest(p, d) ==> p.parse(e).value == d
  {
    assert e in [e];
    forall d | d in ds && Digest(p, p.parse(e).value) == Digest(p, d) ensures p.parse(e).value == d {
      EncodedParses(p, d);
      EncodedParses(p, p.parse(e).value);
    }
  }

  /** Whatever disclosure list is put behind the issued JWT: it is accepted exactly when every entry
      reads as an issued disclosure, and then every disclosed claim was issued with that value. */
  lemma OnlyIssuedClaims(p: Prims, o: Options, order: seq<string>, salts: seq<string>, now: int, t: Token,
                         parsed: Parsed,
                         nonce: string, audience: string, at: int)
    requires Lawful(p) && WellIssued(p, o, now)
    requires Visits(o, order) && |order| <= |salts|
    requires Issued(p, o, order, salts, now) == Ok(t)
    requires parsed.jwt == t.jwt && NoCollision(p, parsed.disclosures, t.disclosures)
    ensures var r := VerifyParsed(p, parsed, nonce, audience, at);
      r.Ok? ==> forall k :: k in r.value.disclosed ==> k in o.selective && r.value.disclosed[k] == o.selective[k]
    ensures VerifyParsed(p, parsed, nonce, audience, at).Ok? ==>
      forall e :: e in parsed.disclosures ==> ReadsAs(p, e, t.disclosures)
    ensures parsed.kb == "" && nonce == "" && audience == "" && at / SECOND <= Expiry(o, now) ==>
      (VerifyParsed(p, parsed, nonce, audience, at).Ok? <==>
       forall e :: e in parsed.disclosures ==> ReadsAs(p, e, t.disclosures))
  {
    VerifyIssued(p, o, order, salts, now, t, parsed, nonce, audience, at);
    IssuedFacts(p, o, order, salts, now, t);
    IssuedBacked(p, o, order, salts, now);
    hide Lawful, Disclosed, IssuedPayload, Issued, Visits, AllDigests, MakeDisclosures, VerifyParsed, NoCollision,
      ReadsAs, KeyBound, WellIssued, Covers;
    AcceptedExactly(p, parsed.disclosures, t.disclosures, AllDigests(p, t.disclosures));
  }

  // ----- key binding -----

  function TrimTilde(s: string): string {
    if |s| > 0 && s[|s| - 1] == '~' then s[..|s| - 1] else s
  }

  function KeyBindingClaims(p: Prims, base: string, nonce: string, audience: string, now: int): Payload {
    map["nonce" := Str(nonce), "aud" := Str(audience), "iat" := Num(now / SECOND),
        "sd_hash" := Str(p.sha(TrimTilde(base)))]
  }

  /** sdjwt.go:135-152 */
  function PresentedWithKeyBinding(p: Prims, t: Token, keys: set<string>, holder: Key, kid: string,
                                   nonce: string, audience: string, now: int): string {
    var base := Presented(p, t, keys);
    base + p.sign(KeyBindingClaims(p, base, nonce, audience, now), holder, kid, "kb+jwt")
  }

  lemma KeyBindingSigned(p: Prims, base: string, holder: Key, kid: string, nonce: string, audience: string, now: int)
    requires Lawful(p) && 0 <= now / SECOND <= EXACT
    ensures var claims := KeyBindingClaims(p, base, nonce, audience, now);
      var kb := p.sign(claims, holder, kid, "kb+jwt");
      && kb != "" && '~' !in kb && Count(kb, '.') == 2
      && p.verifySig(kb, p.public(holder)) && p.payload(kb) == Some(claims)
  {
    var claims := KeyBindingClaims(p, base, nonce, audience, now);
    assert StablePayload(p, claims);
    SignedVerifies(p, claims, holder, kid, "kb+jwt");
  }

  /** The holder hashes the presentation without its last `~` (line 138), the verifier hashes it with
      that `~` (line 539): an otherwise faultless key-bound presentation is accepted only if the two
      hashes happen to be equal. */
  lemma KeyBindingAcceptedIff(p: Prims, o: Options, order: seq<string>, salts: seq<string>, now: int, t: Token,
                              keys: set<string>,
                              holder: Key, kid: string, nonce: string, audience: string, at: int)
    requires Lawful(p) && WellIssued(p, o, now)
    requires Visits(o, order) && |order| <= |salts|
    requires Issued(p, o, order, salts, now) == Ok(t)
    requires 0 <= at / SECOND <= Expiry(o, now)
    requires p.holderKey(IssuedPayload(p, o, t.disclosures, now)) == Some(p.public(holder))
    ensures VerifyToken(p, PresentedWithKeyBinding(p, t, keys, holder, kid, nonce, audience, at),
                        nonce, audience, at).Ok?
       <==> p.sha(Presented(p, t, keys)) == p.sha(TrimTilde(Presented(p, t, keys)))
  {
    hide Lawful, ParseToken, Disclosed, IssuedPayload, Selected, AllDigests, VerifyParsed, Issued, Visits, TrimTilde,
      MakeDisclosures, Join;
    IssuedFacts(p, o, order, salts, now, t);
    DisclosesWhatWasNamed(p, o, order, salts, now, t, keys);
    OwnDigestsListed(p, o, t, keys);
    var shown, base := Selected(t.disclosures, keys), Presented(p, t, keys);
    KeyBindingSigned(p, base, holder, kid, nonce, audience, at);
    var kb := p.sign(KeyBindingClaims(p, base, nonce, audience, at), holder, kid, "kb+jwt");
    ParseSerialized(p, t.jwt, shown, kb);
    VerifyIssued(p, o, order, salts, now, t, Parsed(t.jwt, Encoded(p, shown), kb), nonce, audience, at);
  }

  /** An always-visible claim named `_sd` replaces the digest list (lines 238-240). With the other checks
      passing, what accompanies the JWT is then accepted exactly when every entry parses and has its digest
      among the strings of that claim. */
  lemma OverriddenDigests(p: Prims, o: Options, order: seq<string>, salts: seq<string>, now: int, t: Token,
                          parsed: Parsed, at: int)
    requires Lawful(p) && WellSigned(p, o, now)
    requires Visits(o, order) && |order| <= |salts|
    requires Issued(p, o, order, salts, now) == Ok(t)
    requires "_sd" in o.always && parsed.jwt == t.jwt && parsed.kb == "" && at / SECOND <= Expiry(o, now)
    ensures VerifyParsed(p, parsed, "", "", at).Ok?
       <==> forall e :: e in parsed.disclosures ==> ListedEntry(p, DigestSet(o.always), e)
  {
    hide Lawful, Disclosed, IssuedPayload, Issued, Visits, DigestSet, VerifyParsed, WellSigned, Attributed;
    VerifyIssued(p, o, order, salts, now, t, parsed, "", "", at);
    DisclosedIff(p, DigestSet(o.always), parsed.disclosures);
  }

  /** In particular a token whose `_sd` claim is not a list can disclose none of its selective claims. */
  lemma OverriddenByNonList(p: Prims, o: Options, order: seq<string>, salts: seq<string>, now: int, t: Token,
                            parsed: Parsed, nonce: string, audience: string, at: int)
    requires Visits(o, order) && |order| <= |salts|
    requires Issued(p, o, order, salts, now) == Ok(t)
             && p.payload(t.jwt) == Some(IssuedPayload(p, o, t.disclosures, now))
    requires "_sd" in o.always && !o.always["_sd"].Arr?
    requires parsed.jwt == t.jwt && |parsed.disclosures| > 0
    ensures VerifyParsed(p, parsed, nonce, audience, at).Err?
  {
    var m := IssuedPayload(p, o, t.disclosures, now);
    assert DigestSet(m) == {};
    hide IssuedPayload, Issued, DigestSet, BindingResult;
  }

  // ----- every accepted token -----

  ghost predicate HolderProved(p: Prims, claims: Payload, parsed: Parsed, nonce: string, audience: string) {
    && p.holderKey(claims).Some? && p.verifySig(parsed.kb, p.holderKey(claims).value)
    && p.payload(parsed.kb).Some?
    && var kb := p.payload(parsed.kb).value;
    && (nonce != "" ==> StringOrEmpty(kb, "nonce") == nonce)
    && (audience != "" ==> StringOrEmpty(kb, "aud") == audience)
    && StringOrEmpty(kb, "sd_hash") == p.sha(Join([parsed.jwt] + parsed.disclosures) + "~")
  }

  /** What a verifier may rely on: the JWT verifies under the key its own issuer resolves to, has not expired,
      lists every disclosure, and is bound to its holder if it carries or was asked for a key binding. */
  ghost predicate Acceptable(p: Prims, parsed: Parsed, nonce: string, audience: string, now: int) {
    && p.payload(parsed.jwt).Some?
    && var claims := p.payload(parsed.jwt).value;
    && "iss" in claims && claims["iss"].Str? && claims["iss"].s != ""
    && p.resolve(claims["iss"].s).Some? && p.verifySig(parsed.jwt, p.resolve(claims["iss"].s).value)
    && ("exp" in claims && claims["exp"].Num? ==> now / SECOND <= claims["exp"].n)
    && (forall e :: e in parsed.disclosures ==> ListedEntry(p, DigestSet(claims), e))
    && (parsed.kb == "" ==> nonce == "" && audience == "")
    && (parsed.kb != "" ==> HolderProved(p, claims, parsed, nonce, audience))
  }

  lemma BindingIff(p: Prims, claims: Payload, parsed: Parsed, nonce: string, audience: string)
    ensures BindingResult(p, claims, parsed, nonce, audience).Ok? <==>
            && (parsed.kb == "" ==> nonce == "" && audience == "")
            && (parsed.kb != "" ==> HolderProved(p, claims, parsed, nonce, audience))
  {
    hide Join;
  }

  /** sdjwt.go:322-425: any token whatsoever is accepted if and only if it parses and is acceptable. */
  lemma AcceptedIff(p: Prims, token: string, nonce: string, audience: string, now: int)
    ensures VerifyToken(p, token, nonce, audience, now).Ok?
       <==> ParseToken(token).Ok? && Acceptable(p, ParseToken(token).value, nonce, audience, now)
  {
    hide ParseToken, Disclosed, BindingResult, DigestSet, HolderProved, ListedEntry, Summary;
    if ParseToken(token).Ok? {
      var parsed := ParseToken(token).value;
      if p.payload(parsed.jwt).Some? {
        var claims := p.payload(parsed.jwt).value;
        BindingIff(p, claims, parsed, nonce, audience);
        DisclosedIff(p, DigestSet(claims), parsed.disclosures);
      }
    }
  }

  /** The signature scheme is not forged on this JWT: what verifies was signed under the matching key. */
  ghost predicate Unforged(p: Prims, jwt: string, pub: Key) {
    p.verifySig(jwt, pub) ==> exists s: Signing :: SignedAs(p, jwt, pub, s)
  }

  datatype Signing = Signing(payload: Payload, key: Key, kid: string, typ: string)

  ghost predicate SignedAs(p: Prims, jwt: string, pub: Key, s: Signing) {
    p.public(s.key) == pub && StablePayload(p, s.payload) && jwt == p.sign(s.payload, s.key, s.kid, s.typ)
  }

  /** Then whatever is accepted says what the holder of the issuer's key signed: issuer, subject, type, times,
      visible claims, and a digest for every disclosed claim. */
  lemma AcceptedWasSigned(p: Prims, token: string, nonce: string, audience: string, now: int,
                          v: Verified) returns (s: Signing)
    requires Lawful(p) && VerifyToken(p, token, nonce, audience, now) == Ok(v)
    requires p.resolve(v.issuer).Some? ==> Unforged(p, ParseToken(token).value.jwt, p.resolve(v.issuer).value)
    ensures ParseToken(token).Ok? && p.resolve(v.issuer).Some?
    ensures SignedAs(p, ParseToken(token).value.jwt, p.resolve(v.issuer).value, s)
    ensures v == Summary(s.payload, v.disclosed, v.bound)
    ensures forall e :: e in ParseToken(token).value.disclosures ==> ListedEntry(p, DigestSet(s.payload), e)
  {
    hide Lawful, Disclosed, BindingResult, DigestSet, ParseToken, HolderProved, ListedEntry, SignedAs, Visible,
      NumberOf;
    AcceptedIff(p, token, nonce, audience, now);
    var jwt := ParseToken(token).value.jwt;
    var pub := p.resolve(v.issuer).value;
    s :| SignedAs(p, jwt, pub, s);
    SignedPayload(p, jwt, pub, s);
  }

  lemma SignedPayload(p: Prims, jwt: string, pub: Key, s: Signing)
    requires Lawful(p) && SignedAs(p, jwt, pub, s)
    ensures p.payload(jwt) == Some(s.payload)
  {
    SignedVerifies(p, s.payload, s.key, s.kid, s.typ);
  }

  // ----- every token that parses -----

  lemma {:induction false} JoinOfSplit(s: string)
    ensures Join(Split(s)) == s
    ensures forall i :: 0 <= i < |Split(s)| ==> '~' !in Split(s)[i]
  {
    if |s| > 0 {
      JoinOfSplit(s[1..]);
      var rest, parts := Split(s[1..]), Split(s);
      assert s == [s[0]] + s[1..];
      assert parts == if s[0] == '~' then [""] + rest else [[s[0]] + rest[0]] + rest[1..];
      hide Split, Join;
      if s[0] == '~' {
        JoinCons("", rest);
      } else {
        assert rest == [rest[0]] + rest[1..];
        JoinGrows(s[0], [s[0]] + rest[0], rest[0], rest[1..]);
      }
    }
  }

  lemma JoinCons(part: string, rest: seq<string>)
    requires |rest| > 0
    ensures Join([part] + rest) == part + "~" + Join(rest)
  {
    assert ([part] + rest)[1..] == rest;
  }

  lemma JoinOne(part: string)
    ensures Join([part]) == part
  {
  }

  lemma JoinGrows(c: char, longer: string, part: string, rest: seq<string>)
    requires longer == [c] + part
    ensures Join([longer] + rest) == [c] + Join([part] + rest)
  {
    hide Join;
    if |rest| == 0 {
      JoinOne(longer);
      JoinOne(part);
      assert [longer] + rest == [longer] && [part] + rest == [part];
    } else {
      JoinCons(longer, rest);
      JoinCons(part, rest);
      Regroup(c, part, "~" + Join(rest));
      assert longer + "~" + Join(rest) == longer + ("~" + Join(rest));
      assert part + "~" + Join(rest) == part + ("~" + Join(rest));
    }
  }

  lemma Regroup(c: char, part: string, rest: string)
    ensures [c] + part + rest == [c] + (part + rest)
  {
  }

  /** The parts that are neither empty nor shaped like a JWT, in order. */
  function Plain(parts: seq<string>): seq<string> {
    if |parts| == 0 then []
    else (if parts[0] != "" && Count(parts[0], '.') != 2 then [parts[0]] else []) + Plain(parts[1..])
  }

  lemma {:induction false} PlainSplit(a: seq<string>, b: seq<string>)
    ensures Plain(a + b) == Plain(a) + Plain(b)
    decreases |a|
  {
    hide Count;
    if |a| > 0 {
      PlainSplit(a[1..], b);
      assert (a + b)[1..] == a[1..] + b;
    } else {
      assert a + b == b;
    }
  }

  lemma {:induction false} ClassifyFilters(jwt: string, parts: seq<string>)
    ensures Classify(jwt, parts).jwt == jwt && Classify(jwt, parts).disclosures == Plain(parts)
    ensures var kb := Classify(jwt, parts).kb;
      if kb == "" then forall i :: 0 <= i < |parts| ==> Count(parts[i], '.') != 2
      else exists i :: LastJwt(parts, kb, i)
  {
    if |parts| > 0 {
      var n := |parts| - 1;
      ClassifyFilters(jwt, parts[..n]);
      NoDots();
      hide Count;
      PlainSplit(parts[..n], [parts[n]]);
      assert parts == parts[..n] + [parts[n]];
      assert [parts[n]][1..] == [];
      var kb := Classify(jwt, parts).kb;
      if Count(parts[n], '.') == 2 {
        assert LastJwt(parts, kb, n);
      } else if kb != "" {
        var i :| LastJwt(parts[..n], kb, i);
        assert LastJwt(parts, kb, i);
      }
    }
  }

  /** Part i is the last with two dots. */
  ghost predicate LastJwt(parts: seq<string>, kb: string, i: int) {
    && 0 <= i < |parts| && parts[i] == kb && Count(kb, '.') == 2
    && forall j :: i < j < |parts| ==> Count(parts[j], '.') != 2
  }

  lemma NoDots()
    ensures Count("", '.') == 0
  {
  }

  /** sdjwt.go:264-285: a token parses if and only if it contains a separator; it is then cut at the
      separators into the JWT, the disclosures, and the last part shaped like a JWT. */
  lemma ParsedIff(token: string)
    ensures ParseToken(token).Ok? <==> '~' in token
    ensures ParseToken(token).Ok? ==>
      && Join(Split(token)) == token && (forall i :: 0 <= i < |Split(token)| ==> '~' !in Split(token)[i])
      && var parsed, rest := ParseToken(token).value, Split(token)[1..];
      && parsed.jwt == Split(token)[0] && parsed.disclosures == Plain(rest)
      && (if parsed.kb == "" then forall i :: 0 <= i < |rest| ==> Count(rest[i], '.') != 2
          else exists i :: LastJwt(rest, parsed.kb, i))
  {
    hide Split, Count, Plain, LastJwt, Classify, Join;
    JoinOfSplit(token);
    SplitCount(token);
    var parts := Split(token);
    if |parts| >= 2 {
      ClassifyFilters(parts[0], parts[1..]);
    }
  }

  lemma {:induction false} SplitCount(s: string)
    ensures |Split(s)| >= 2 <==> '~' in s
  {
    if |s| > 0 {
      SplitCount(s[1..]);
      assert s == [s[0]] + s[1..];
    }
  }

  lemma SelectedStep(ds: seq<Disclosure>, d: Disclosure, keys: set<string>)
    ensures Selected(ds + [d], keys) == if d.key in keys then Selected(ds, keys) + [d] else Selected(ds, keys)
  {
    var more := ds + [d];
    assert more[..|more| - 1] == ds;
    assert Selected(ds, keys) + [] == Selected(ds, keys);
  }

  lemma SelectedNone(keys: set<string>)
    ensures Selected([], keys) == []
  {
  }

  /** The selection keeps the order and the number of the disclosures it keeps. */
  lemma {:induction false} SelectedInOrder(a: seq<Disclosure>, b: seq<Disclosure>, keys: set<string>)
    ensures Selected(a + b, keys) == Selected(a, keys) + Selected(b, keys)
    decreases |b|
  {
    hide Selected;
    if |b| == 0 {
      SelectedNone(keys);
      assert a + b == a && Selected(a, keys) + [] == Selected(a, keys);
    } else {
      var n, d := |b| - 1, b[|b| - 1];
      SelectedInOrder(a, b[..n], keys);
      SelectedStep(a + b[..n], d, keys);
      SelectedStep(b[..n], d, keys);
      assert a + b == (a + b[..n]) + [d] && b == b[..n] + [d];
    }
  }
}
