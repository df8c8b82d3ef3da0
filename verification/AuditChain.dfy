/** The tamper-evident audit log (crates/tpt-pantheon-spine-audit-log/src/lib.rs:18-38 and
    115-296). Strings are their UTF-8 bytes. */
module AuditChain {

  import opened Bytes
  import opened Wrappers
  import opened Sorting

  datatype Outcome = Allow | Deny | Error

  datatype Event = Event(
    id: Text, ts: nat, actor: Text, action: Text, target: Text,
    outcome: Outcome, meta: map<Text, Text>)

  /** SHA-256 as lower-case hexadecimal text. */
  type Digest = seq<byte> -> Text

  ghost predicate IsDigest(sha: Digest) {
    forall x {:trigger sha(x)} :: |sha(x)| == 64
  }

  datatype ChainError =
    | MissingHash(id: Text)
    | HashMismatch(id: Text, recomputed: Text, stored: Text)
    | BrokenLink(id: Text, expected: Text, found: Text)

  const HASH_KEY: Text := [0x5f, 0x63, 0x68, 0x61, 0x69, 0x6e, 0x5f, 0x68, 0x61, 0x73, 0x68]
  const PREV_KEY: Text := [0x5f, 0x63, 0x68, 0x61, 0x69, 0x6e, 0x5f, 0x70, 0x72, 0x65, 0x76]
  const GENESIS: Text := [0x30]

  // ----- canonical content -----

  function OutcomeCode(o: Outcome): nat {
    match o
    case Allow => 0
    case Deny => 1
    case Error => 2
  }

  function LittleEndian(n: nat, k: nat): (r: seq<byte>)
    ensures |r| == k
  {
    if k == 0 then [] else [(n % 256) as byte] + LittleEndian(n / 256, k - 1)
  }

  lemma {:induction false} LittleEndianInjective(m: nat, n: nat, k: nat)
    requires m < Power256(k) && n < Power256(k) && LittleEndian(m, k) == LittleEndian(n, k)
    ensures m == n
  {
    if k > 0 {
      var a, b := LittleEndian(m, k), LittleEndian(n, k);
      assert a[1..] == LittleEndian(m / 256, k - 1) && b[1..] == LittleEndian(n / 256, k - 1);
      LittleEndianInjective(m / 256, n / 256, k - 1);
      assert a[0] == (m % 256) as byte && b[0] == (n % 256) as byte;
      ByteOfInt(m % 256);
      ByteOfInt(n % 256);
    }
  }

  ghost function SortedKeys(keys: set<Text>): (r: seq<Text>)
    ensures multiset(r) == multiset(keys)
  {
    if keys == {} then []
    else
      var k :| k in keys;
      assert keys == (keys - {k}) + {k};
      Insert(k, SortedKeys(keys - {k}))
  }

  lemma {:induction false} SortedKeysSorted(keys: set<Text>)
    ensures IsSorted(SortedKeys(keys))
  {
    if keys != {} {
      var k :| k in keys && SortedKeys(keys) == Insert(k, SortedKeys(keys - {k}));
      SortedKeysSorted(keys - {k});
      InsertSorted(k, SortedKeys(keys - {k}));
    }
  }

  /** Keys and values in key order, one after the other. */
  function MetaBytes(meta: map<Text, Text>, keys: seq<Text>): seq<byte>
    requires forall k :: k in keys ==> k in meta
  {
    if |keys| == 0 then [] else MetaBytes(meta, keys[..|keys| - 1]) + keys[|keys| - 1] + meta[keys[|keys| - 1]]
  }

  /** The metadata without the chain's own keys. */
  function Plain(meta: map<Text, Text>): map<Text, Text> {
    meta - {HASH_KEY, PREV_KEY}
  }

  lemma KeysListed(meta: map<Text, Text>)
    ensures forall k :: k in SortedKeys(meta.Keys) ==> k in meta
  {
    forall k | k in SortedKeys(meta.Keys) ensures k in meta {
      assert k in multiset(SortedKeys(meta.Keys));
    }
  }

  ghost function PlainBytes(meta: map<Text, Text>): seq<byte> {
    KeysListed(Plain(meta));
    MetaBytes(Plain(meta), SortedKeys(Plain(meta).Keys))
  }

  function FixedBytes(e: Event): seq<byte> {
    e.id + LittleEndian(e.ts, 8) + e.actor + e.action + e.target + LittleEndian(OutcomeCode(e.outcome), 4)
  }

  /** What the hash of a record covers besides the previous hash. */
  ghost function Canonical(e: Event): seq<byte> {
    FixedBytes(e) + PlainBytes(e.meta)
  }

  ghost function ChainHash(sha: Digest, prev: Text, e: Event): Text {
    sha(prev + Canonical(e))
  }

  // ----- verification -----

  function StoredPrev(e: Event): Text {
    if PREV_KEY in e.meta then e.meta[PREV_KEY] else GENESIS
  }

  ghost function VerifyOne(sha: Digest, prev: Text, e: Event): Result<Text, ChainError> {
    if HASH_KEY !in e.meta then Err(MissingHash(e.id))
    else if StoredPrev(e) != prev then Err(BrokenLink(e.id, prev, StoredPrev(e)))
    else if ChainHash(sha, prev, e) != e.meta[HASH_KEY]
      then Err(HashMismatch(e.id, ChainHash(sha, prev, e), e.meta[HASH_KEY]))
    else Ok(e.meta[HASH_KEY])
  }

  /** The head after checking all events, or the first error. */
  ghost function Verify(sha: Digest, es: seq<Event>): Result<Text, ChainError> {
    if |es| == 0 then Ok(GENESIS)
    else
      match Verify(sha, es[..|es| - 1])
      case Err(e) => Err(e)
      case Ok(prev) => VerifyOne(sha, prev, es[|es| - 1])
  }

  /** lib.rs:194-215 */
  method ComputeChainHash(sha: Digest, prev: Text, e: Event) returns (h: Text)
    ensures h == ChainHash(sha, prev, e)
  {
    hide LittleEndian, OutcomeCode, MetaBytes, SortedKeys;
    var buf := prev;
    buf := buf + e.id;
    buf := buf + LittleEndian(e.ts, 8);
    buf := buf + e.actor;
    buf := buf + e.action;
    buf := buf + e.target;
    buf := buf + LittleEndian(OutcomeCode(e.outcome), 4);
    Regroup(prev, e.id, LittleEndian(e.ts, 8), e.actor, e.action, e.target, LittleEndian(OutcomeCode(e.outcome), 4));
    KeysListed(Plain(e.meta));
    buf := AppendMeta(buf, Plain(e.meta));
    hide FixedBytes, PlainBytes;
    assert prev + FixedBytes(e) + PlainBytes(e.meta) == prev + Canonical(e);
    h := sha(buf);
  }

  lemma Regroup(p: seq<byte>, a: seq<byte>, b: seq<byte>, c: seq<byte>, d: seq<byte>, e: seq<byte>, f: seq<byte>)
    ensures p + a + b + c + d + e + f == p + (a + b + c + d + e + f)
  {}

  /** lib.rs:203-212 */
  method AppendMeta(head: seq<byte>, meta: map<Text, Text>) returns (buf: seq<byte>)
    requires forall k :: k in SortedKeys(meta.Keys) ==> k in meta
    ensures buf == head + MetaBytes(meta, SortedKeys(meta.Keys))
  {
    hide SortedKeys;
    var keys := KeysInOrder(meta.Keys);
    buf := head;
    for i := 0 to |keys|
      invariant buf == head + MetaBytes(meta, keys[..i])
    {
      assert keys[..i + 1][..i] == keys[..i];
      buf := buf + keys[i];
      buf := buf + meta[keys[i]];
    }
    assert keys[..|keys|] == keys;
  }

  method KeysInOrder(keys: set<Text>) returns (r: seq<Text>)
    ensures r == SortedKeys(keys)
  {
    r := [];
    var pending := keys;
    while pending != {}
      invariant pending <= keys
      invariant multiset(r) == multiset(keys - pending)
      invariant IsSorted(r)
      decreases pending
    {
      var k :| k in pending;
      InsertSorted(k, r);
      r := Insert(k, r);
      assert keys - (pending - {k}) == (keys - pending) + {k};
      pending := pending - {k};
    }
    assert keys - pending == keys;
    SortedKeysSorted(keys);
    SortedUnique(r, SortedKeys(keys));
  }

  lemma {:induction false} VerifyStops(sha: Digest, es: seq<Event>, k: nat)
    requires k <= |es|
    ensures Verify(sha, es[..k]).Err? ==> Verify(sha, es) == Verify(sha, es[..k])
    decreases |es|
  {
    hide VerifyOne;
    if k < |es| {
      var n := |es| - 1;
      VerifyStops(sha, es[..n], k);
      assert es[..n][..k] == es[..k];
    } else {
      assert es[..k] == es;
    }
  }

  /** lib.rs:220-246 */
  method VerifyChain(sha: Digest, events: seq<Event>) returns (r: Result<Text, ChainError>)
    ensures r == Verify(sha, events)
  {
    hide ChainHash;
    var prev := GENESIS;
    for i := 0 to |events|
      invariant Verify(sha, events[..i]) == Ok(prev)
    {
      assert events[..i + 1][..i] == events[..i];
      VerifyStops(sha, events, i + 1);
      var e := events[i];
      if HASH_KEY !in e.meta {
        return Err(MissingHash(e.id));
      }
      var stored := e.meta[HASH_KEY];
      var storedPrev := if PREV_KEY in e.meta then e.meta[PREV_KEY] else GENESIS;
      if storedPrev != prev {
        return Err(BrokenLink(e.id, prev, storedPrev));
      }
      var recomputed := ComputeChainHash(sha, storedPrev, e);
      if recomputed != stored {
        return Err(HashMismatch(e.id, recomputed, stored));
      }
      prev := stored;
    }
    assert events[..|events|] == events;
    r := Ok(prev);
  }

  // ----- the sink -----

  function Head(es: seq<Event>): Text {
    if |es| > 0 && HASH_KEY in es[|es| - 1].meta then es[|es| - 1].meta[HASH_KEY] else GENESIS
  }

  ghost function Linked(sha: Digest, prev: Text, e: Event): Event {
    var bare := e.(meta := Plain(e.meta));
    bare.(meta := bare.meta[PREV_KEY := prev][HASH_KEY := ChainHash(sha, prev, bare)])
  }

  class HashChainSink {
    var events: seq<Event>

    constructor ()
      ensures events == []
    {
      events := [];
    }

    /** lib.rs:142-148 and 281-296 */
    method Append(sha: Digest, event: Event) returns (ok: bool)
      modifies this
      ensures ok <==> event.action != []
      ensures events == if ok then old(events) + [Linked(sha, Head(old(events)), event)] else old(events)
    {
      var prev := GENESIS;
      if |events| > 0 && HASH_KEY in events[|events| - 1].meta {
        prev := events[|events| - 1].meta[HASH_KEY];
      }
      var e := event.(meta := event.meta - {PREV_KEY});
      e := e.(meta := e.meta - {HASH_KEY});
      assert e.meta == Plain(event.meta);
      var hash := ComputeChainHash(sha, prev, e);
      e := e.(meta := e.meta[PREV_KEY := prev]);
      e := e.(meta := e.meta[HASH_KEY := hash]);
      if e.action == [] {
        return false;
      }
      events := events + [e];
      return true;
    }
  }

  /** Logs that sequences of appends produce. */
  ghost function Appended(sha: Digest, inputs: seq<Event>): seq<Event> {
    if |inputs| == 0 then []
    else
      var before := Appended(sha, inputs[..|inputs| - 1]);
      var e := inputs[|inputs| - 1];
      if e.action == [] then before else before + [Linked(sha, Head(before), e)]
  }

  lemma KeysDiffer()
    ensures HASH_KEY != PREV_KEY
  {
    assert HASH_KEY[7] == 0x68 && PREV_KEY[7] == 0x70;
  }

  /** The chain keys are not part of the canonical content. */
  lemma LinkedCanonical(sha: Digest, prev: Text, e: Event)
    ensures Canonical(Linked(sha, prev, e)) == Canonical(e.(meta := Plain(e.meta)))
  {
    hide FixedBytes, PlainBytes, ChainHash;
    KeysDiffer();
    LinkedPlain(sha, prev, e);
  }

  lemma LinkedPlain(sha: Digest, prev: Text, e: Event)
    ensures PlainBytes(Linked(sha, prev, e).meta) == PlainBytes(Plain(e.meta))
    ensures FixedBytes(Linked(sha, prev, e)) == FixedBytes(e.(meta := Plain(e.meta)))
  {
    hide SortedKeys, MetaBytes, ChainHash;
    assert Plain(Linked(sha, prev, e).meta) == Plain(Plain(e.meta)) == Plain(e.meta);
  }

  lemma LinkedVerifies(sha: Digest, prev: Text, e: Event)
    ensures VerifyOne(sha, prev, Linked(sha, prev, e)) == Ok(Linked(sha, prev, e).meta[HASH_KEY])
  {
    hide Canonical;
    KeysDiffer();
    LinkedCanonical(sha, prev, e);
  }

  lemma {:induction false} HeadIsVerified(sha: Digest, es: seq<Event>)
    requires Verify(sha, es).Ok?
    ensures Verify(sha, es) == Ok(Head(es))
  {}

  /** Every log built by sequential appends passes verification. */
  lemma {:induction false} AppendedVerifies(sha: Digest, inputs: seq<Event>)
    ensures Verify(sha, Appended(sha, inputs)).Ok?
  {
    hide VerifyOne, Linked;
    if |inputs| > 0 {
      var n := |inputs| - 1;
      AppendedVerifies(sha, inputs[..n]);
      var before, e := Appended(sha, inputs[..n]), inputs[n];
      if e.action != [] {
        HeadIsVerified(sha, before);
        var last := Linked(sha, Head(before), e);
        LinkedVerifies(sha, Head(before), e);
        assert (before + [last])[..|before|] == before;
      }
    }
  }

  // ----- tamper evidence -----

  /** The hash the record at position i is linked to. */
  function PrevAt(es: seq<Event>, i: nat): Text
    requires i < |es|
  {
    Head(es[..i])
  }

  ghost function Preimage(es: seq<Event>, i: nat): seq<byte>
    requires i < |es|
  {
    PrevAt(es, i) + Canonical(es[i])
  }

  /** The digest tells apart what the two logs hash at the same position. */
  ghost predicate NoCollision(sha: Digest, a: seq<Event>, b: seq<Event>)
    requires |a| == |b|
  {
    forall i :: 0 <= i < |a| ==> (sha(Preimage(a, i)) == sha(Preimage(b, i)) ==> Preimage(a, i) == Preimage(b, i))
  }

  /** In an accepted log the last record stores the hash of the head before it and its content. */
  lemma LastLink(sha: Digest, es: seq<Event>)
    requires |es| > 0 && Verify(sha, es).Ok?
    ensures Verify(sha, es[..|es| - 1]).Ok?
    ensures Head(es) == sha(Preimage(es, |es| - 1))
    ensures StoredPrev(es[|es| - 1]) == PrevAt(es, |es| - 1)
  {
    hide Canonical;
    HeadIsVerified(sha, es[..|es| - 1]);
  }

  lemma HeadLength(sha: Digest, es: seq<Event>)
    requires IsDigest(sha) && Verify(sha, es).Ok?
    ensures |Head(es)| == if |es| == 0 then 1 else 64
  {
    hide Preimage, Verify;
    if |es| > 0 {
      LastLink(sha, es);
    }
  }

  lemma SplitEqual(p: Text, x: seq<byte>, q: Text, y: seq<byte>)
    requires p + x == q + y && |p| == |q|
    ensures p == q && x == y
  {
    assert (p + x)[..|p|] == p && (q + y)[..|q|] == q;
    assert (p + x)[|p|..] == x && (q + y)[|q|..] == y;
  }

  /** Two accepted logs of the same length with the same last hash agree at every position on
      the previous hash and on the canonical record bytes. */
  lemma {:induction false} SameHeadSameHistory(sha: Digest, a: seq<Event>, b: seq<Event>, i: nat)
    requires IsDigest(sha) && |a| == |b| && i < |a|
    requires Verify(sha, a).Ok? && Verify(sha, b).Ok? && Head(a) == Head(b)
    requires NoCollision(sha, a, b)
    ensures PrevAt(a, i) == PrevAt(b, i) && Canonical(a[i]) == Canonical(b[i])
    decreases |a|
  {
    hide Canonical, Verify, Head, IsDigest;
    var n := |a| - 1;
    var a', b' := a[..n], b[..n];
    LastLink(sha, a);
    LastLink(sha, b);
    HeadLength(sha, a');
    HeadLength(sha, b');
    SplitEqual(PrevAt(a, n), Canonical(a[n]), PrevAt(b, n), Canonical(b[n]));
    if i < n {
      PrefixCollision(sha, a, b, n);
      SameHeadSameHistory(sha, a', b', i);
      assert a'[..i] == a[..i] && b'[..i] == b[..i];
    }
  }

  lemma PrefixCollision(sha: Digest, a: seq<Event>, b: seq<Event>, n: nat)
    requires |a| == |b| && n <= |a| && NoCollision(sha, a, b)
    ensures NoCollision(sha, a[..n], b[..n])
  {
    hide Canonical, Head;
    forall i | 0 <= i < n ensures Preimage(a[..n], i) == Preimage(a, i) && Preimage(b[..n], i) == Preimage(b, i) {
      assert a[..n][..i] == a[..i] && b[..n][..i] == b[..i];
    }
  }

  // ----- what verification checks -----

  /** The hash stored in the record before i, or "0". */
  function StoredBefore(es: seq<Event>, i: nat): Text
    requires i < |es|
  {
    if i == 0 then [0x30] else if HASH_KEY in es[i - 1].meta then es[i - 1].meta[HASH_KEY] else []
  }

  /** The record stores a hash, names the hash before it, and its own hash is the digest of both. */
  ghost predicate WellLinked(sha: Digest, es: seq<Event>, i: nat)
    requires i < |es|
  {
    && HASH_KEY in es[i].meta
    && (if PREV_KEY in es[i].meta then es[i].meta[PREV_KEY] else [0x30]) == StoredBefore(es, i)
    && es[i].meta[HASH_KEY] == sha(StoredBefore(es, i) + Canonical(es[i]))
  }

  lemma HeadIsStored(es: seq<Event>)
    requires |es| > 0 && (|es| > 1 ==> HASH_KEY in es[|es| - 2].meta)
    ensures Head(es[..|es| - 1]) == StoredBefore(es, |es| - 1)
  {
  }

  lemma WellLinkedPrefix(sha: Digest, es: seq<Event>, n: nat, i: nat)
    requires i < n <= |es|
    ensures WellLinked(sha, es[..n], i) <==> WellLinked(sha, es, i)
  {
    hide Canonical;
  }

  /** A log is accepted if and only if every record is well linked; otherwise the error names the first that
      is not. */
  lemma {:induction false} VerifyIff(sha: Digest, es: seq<Event>)
    ensures Verify(sha, es).Ok? <==> forall i :: 0 <= i < |es| ==> WellLinked(sha, es, i)
    ensures Verify(sha, es).Err? ==>
      exists k :: 0 <= k < |es| && !WellLinked(sha, es, k) && Verify(sha, es).error.id == es[k].id
        && forall i :: 0 <= i < k ==> WellLinked(sha, es, i)
  {
    hide Canonical, WellLinked, VerifyOne;
    if |es| > 0 {
      var n := |es| - 1;
      VerifyIff(sha, es[..n]);
      forall i | 0 <= i < n ensures WellLinked(sha, es[..n], i) <==> WellLinked(sha, es, i) {
        WellLinkedPrefix(sha, es, n, i);
      }
      if Verify(sha, es[..n]).Ok? {
        HeadIsVerified(sha, es[..n]);
        if n > 0 {
          HasHash(sha, es, n - 1);
        }
        LastChecked(sha, es);
      } else {
        var k :| 0 <= k < n && !WellLinked(sha, es[..n], k) && Verify(sha, es[..n]).error.id == es[..n][k].id
          && forall i :: 0 <= i < k ==> WellLinked(sha, es[..n], i);
        assert !WellLinked(sha, es, k);
      }
    }
  }

  lemma HasHash(sha: Digest, es: seq<Event>, i: nat)
    requires i < |es| && WellLinked(sha, es, i)
    ensures HASH_KEY in es[i].meta
  {
    hide Canonical;
  }

  lemma LastChecked(sha: Digest, es: seq<Event>)
    requires |es| > 0 && (|es| > 1 ==> HASH_KEY in es[|es| - 2].meta)
    ensures var n := |es| - 1; var r := VerifyOne(sha, Head(es[..n]), es[n]);
      (r.Ok? <==> WellLinked(sha, es, n)) && (r.Err? ==> r.error.id == es[n].id)
  {
    hide Canonical;
    HeadIsStored(es);
  }

  /** The inputs an append does not refuse. */
  function Accepted(inputs: seq<Event>): seq<Event> {
    if |inputs| == 0 then []
    else Accepted(inputs[..|inputs| - 1]) + if inputs[|inputs| - 1].action == [] then [] else [inputs[|inputs| - 1]]
  }

  /** Appending keeps every accepted record, in order, as it was. */
  lemma {:induction false} AppendedKeepsRecords(sha: Digest, inputs: seq<Event>)
    ensures |Appended(sha, inputs)| == |Accepted(inputs)|
    ensures forall i :: 0 <= i < |Accepted(inputs)| ==> SameRecord(Appended(sha, inputs)[i], Accepted(inputs)[i])
  {
    hide Linked, SameRecord;
    if |inputs| > 0 {
      var n := |inputs| - 1;
      AppendedKeepsRecords(sha, inputs[..n]);
      LinkedSameRecord(sha, Head(Appended(sha, inputs[..n])), inputs[n]);
    }
  }

  lemma LinkedSameRecord(sha: Digest, prev: Text, e: Event)
    ensures SameRecord(Linked(sha, prev, e), e)
  {
    LinkedKeepsPlain(sha, prev, e);
    hide ChainHash;
  }

  // ----- the layout of the canonical bytes -----

  lemma {:induction false} LittleEndianDigit(n: nat, k: nat, j: nat)
    requires j < k
    ensures LittleEndian(n, k)[j] as int == (n / Power256(j)) % 256
    decreases k
  {
    if j == 0 {
      ByteOfInt(n % 256);
    } else {
      LittleEndianDigit(n / 256, k - 1, j - 1);
      DivideTwice(n, Power256(j - 1));
    }
  }

  /** lib.rs:194-215: identifier, eight bytes of time and four of outcome, least significant first, around actor,
      action and target; then the metadata. */
  lemma CanonicalLayout(e: Event)
    ensures var bytes := Canonical(e);
      var a := |e.id| + 8;
      var z := a + |e.actor| + |e.action| + |e.target|;
      && |bytes| >= z + 4 && bytes[..|e.id|] == e.id
      && (forall j :: 0 <= j < 8 ==> bytes[|e.id| + j] as int == (e.ts / Power256(j)) % 256)
      && bytes[a..z] == e.actor + e.action + e.target
      && bytes[z] as int == (match e.outcome case Allow => 0 case Deny => 1 case Error => 2)
      && bytes[z + 1] == 0 && bytes[z + 2] == 0 && bytes[z + 3] == 0
      && bytes[z + 4..] == PlainBytes(e.meta)
  {
    hide LittleEndian, PlainBytes, Power256, OutcomeCode, Canonical;
    var ts, code, meta := LittleEndian(e.ts, 8), LittleEndian(OutcomeCode(e.outcome), 4), PlainBytes(e.meta);
    forall j | 0 <= j < 8 ensures ts[j] as int == (e.ts / Power256(j)) % 256 {
      LittleEndianDigit(e.ts, 8, j);
    }
    OutcomeBytes(e.outcome);
    FixedParts(e.id, ts, e.actor + e.action + e.target, code, meta);
    CanonicalGroups(e);
  }

  lemma CanonicalGroups(e: Event)
    ensures Canonical(e) == e.id + LittleEndian(e.ts, 8) + (e.actor + e.action + e.target)
                            + LittleEndian(OutcomeCode(e.outcome), 4) + PlainBytes(e.meta)
  {
    hide LittleEndian, PlainBytes, OutcomeCode;
    var front := e.id + LittleEndian(e.ts, 8);
    assert front + e.actor + e.action + e.target == front + (e.actor + e.action + e.target);
  }

  lemma FixedParts(id: seq<byte>, ts: seq<byte>, middle: seq<byte>, code: seq<byte>, meta: seq<byte>)
    requires |ts| == 8 && |code| == 4
    ensures var bytes := id + ts + middle + code + meta;
      var a := |id| + 8;
      var z := a + |middle|;
      && |bytes| == z + 4 + |meta| && bytes[..|id|] == id && (forall j :: 0 <= j < 8 ==> bytes[|id| + j] == ts[j])
      && bytes[a..z] == middle && (forall j :: 0 <= j < 4 ==> bytes[z + j] == code[j]) && bytes[z + 4..] == meta
  {
  }

  lemma OutcomeBytes(o: Outcome)
    ensures var code := LittleEndian(OutcomeCode(o), 4);
      && code[0] as int == (match o case Allow => 0 case Deny => 1 case Error => 2)
      && code[1] == 0 && code[2] == 0 && code[3] == 0
  {
    var n := OutcomeCode(o);
    assert Power256(0) == 1 && Power256(1) == 256;
    ByteOfInt(n);
    assert LittleEndian(n, 4) == [(n % 256) as byte] + LittleEndian(n / 256, 3);
    assert LittleEndian(0, 3) == [0] + LittleEndian(0, 2);
    assert LittleEndian(0, 2) == [0] + LittleEndian(0, 1);
  }

  // ----- what the canonical bytes do not bind -----

  predicate SameFields(a: Event, b: Event) {
    && a.id == b.id && a.ts == b.ts && a.actor == b.actor && a.action == b.action && a.target == b.target
    && a.outcome == b.outcome
  }

  /** The same record, apart from the chain's own metadata keys. */
  predicate SameRecord(a: Event, b: Event) {
    SameFields(a, b) && Plain(a.meta) == Plain(b.meta)
  }

  predicate SameFieldLengths(a: Event, b: Event) {
    |a.id| == |b.id| && |a.actor| == |b.actor| && |a.action| == |b.action| && |a.target| == |b.target|
  }

  /** The lengths of keys and values, in the order given. */
  function Lengths(meta: map<Text, Text>, keys: seq<Text>): (r: seq<(nat, nat)>)
    requires forall k :: k in keys ==> k in meta
    ensures |r| == |keys|
  {
    seq(|keys|, i requires 0 <= i < |keys| => (|keys[i]|, |meta[keys[i]]|))
  }

  /** The lengths of the hashed metadata keys and values, in key order. */
  ghost function MetaShape(meta: map<Text, Text>): seq<(nat, nat)> {
    KeysListed(Plain(meta));
    Lengths(Plain(meta), SortedKeys(Plain(meta).Keys))
  }

  ghost predicate SameShape(a: Event, b: Event) {
    SameFieldLengths(a, b) && MetaShape(a.meta) == MetaShape(b.meta)
  }

  lemma OutcomeCodeInjective(a: Outcome, b: Outcome)
    requires LittleEndian(OutcomeCode(a), 4) == LittleEndian(OutcomeCode(b), 4)
    ensures a == b
  {
    assert Power256(1) == 256 && Power256(2) == 256 * 256 && Power256(4) == 256 * 256 * Power256(2);
    LittleEndianInjective(OutcomeCode(a), OutcomeCode(b), 4);
  }

  lemma FixedBytesBind(a: Event, b: Event)
    requires FixedBytes(a) == FixedBytes(b) && SameFieldLengths(a, b)
    requires a.ts < Power256(8) && b.ts < Power256(8)
    ensures SameFields(a, b)
  {
    hide LittleEndian, Power256, OutcomeCode;
    var ta, tb := LittleEndian(a.ts, 8), LittleEndian(b.ts, 8);
    var oa, ob := LittleEndian(OutcomeCode(a.outcome), 4), LittleEndian(OutcomeCode(b.outcome), 4);
    SplitEqual(a.id + ta + a.actor + a.action + a.target, oa, b.id + tb + b.actor + b.action + b.target, ob);
    SplitEqual(a.id + ta + a.actor + a.action, a.target, b.id + tb + b.actor + b.action, b.target);
    SplitEqual(a.id + ta + a.actor, a.action, b.id + tb + b.actor, b.action);
    SplitEqual(a.id + ta, a.actor, b.id + tb, b.actor);
    SplitEqual(a.id, ta, b.id, tb);
    LittleEndianInjective(a.ts, b.ts, 8);
    OutcomeCodeInjective(a.outcome, b.outcome);
  }

  /** Metadata bytes of known key and value lengths have one reading. */
  lemma {:induction false} MetaBytesBind(m: map<Text, Text>, ks: seq<Text>, m': map<Text, Text>, ks': seq<Text>)
    requires (forall k :: k in ks ==> k in m) && (forall k :: k in ks' ==> k in m')
    requires Lengths(m, ks) == Lengths(m', ks') && MetaBytes(m, ks) == MetaBytes(m', ks')
    ensures ks == ks' && forall k :: k in ks ==> m[k] == m'[k]
    decreases |ks|
  {
    assert |ks| == |Lengths(m, ks)| == |ks'|;
    if |ks| > 0 {
      var n := |ks| - 1;
      var k, k', v, v' := ks[n], ks'[n], m[ks[n]], m'[ks'[n]];
      assert (|k|, |v|) == Lengths(m, ks)[n] == Lengths(m', ks')[n] == (|k'|, |v'|);
      var x, x' := MetaBytes(m, ks[..n]), MetaBytes(m', ks'[..n]);
      assert MetaBytes(m, ks) == x + k + v && MetaBytes(m', ks') == x' + k' + v';
      SplitEqual(x + k, v, x' + k', v');
      SplitEqual(x, k, x', k');
      assert Lengths(m, ks[..n]) == Lengths(m, ks)[..n] && Lengths(m', ks'[..n]) == Lengths(m', ks')[..n];
      MetaBytesBind(m, ks[..n], m', ks'[..n]);
      assert ks == ks[..n] + [k] && ks' == ks'[..n] + [k'];
    }
  }

  lemma AllKeysListed(meta: map<Text, Text>)
    ensures forall k :: k in meta <==> k in SortedKeys(meta.Keys)
  {
    hide SortedKeys;
    var ks := SortedKeys(meta.Keys);
    assert forall k :: k in ks <==> k in multiset(ks);
  }

  lemma MetaBinds(m: map<Text, Text>, m': map<Text, Text>)
    requires MetaShape(m) == MetaShape(m') && PlainBytes(m) == PlainBytes(m')
    ensures Plain(m) == Plain(m')
  {
    hide SortedKeys, MetaBytes, Lengths;
    var p, p' := Plain(m), Plain(m');
    KeysListed(p);
    KeysListed(p');
    MetaBytesBind(p, SortedKeys(p.Keys), p', SortedKeys(p'.Keys));
    AllKeysListed(p);
    AllKeysListed(p');
  }

  /** With equal canonical bytes the fixed fields are equal exactly when their lengths agree. */
  lemma FieldsBoundIff(a: Event, b: Event)
    requires Canonical(a) == Canonical(b) && a.ts < Power256(8) && b.ts < Power256(8)
    ensures SameFields(a, b) <==> SameFieldLengths(a, b)
  {
    hide PlainBytes;
    if SameFieldLengths(a, b) {
      SplitEqual(FixedBytes(a), PlainBytes(a.meta), FixedBytes(b), PlainBytes(b.meta));
      FixedBytesBind(a, b);
    }
  }

  /** Records with equal canonical bytes are equal exactly when the lengths of their fields and of their
      metadata keys and values agree: the hash runs over all of them without separators. */
  lemma RecordBoundIff(a: Event, b: Event)
    requires Canonical(a) == Canonical(b) && a.ts < Power256(8) && b.ts < Power256(8)
    ensures SameRecord(a, b) <==> SameShape(a, b)
  {
    hide PlainBytes, MetaShape, Plain;
    if SameRecord(a, b) {
      SamePlainSameShape(a.meta, b.meta);
    }
    if SameShape(a, b) {
      SplitEqual(FixedBytes(a), PlainBytes(a.meta), FixedBytes(b), PlainBytes(b.meta));
      FixedBytesBind(a, b);
      MetaBinds(a.meta, b.meta);
    }
  }

  lemma SamePlainSameShape(m: map<Text, Text>, m': map<Text, Text>)
    requires Plain(m) == Plain(m')
    ensures MetaShape(m) == MetaShape(m')
  {
  }

  /** So two accepted logs of the same length and head hold the same record at a position exactly when
      the two records there have the same shape. */
  lemma SameHeadSameRecordIff(sha: Digest, a: seq<Event>, b: seq<Event>, i: nat)
    requires IsDigest(sha) && |a| == |b| && i < |a|
    requires Verify(sha, a).Ok? && Verify(sha, b).Ok? && Head(a) == Head(b)
    requires NoCollision(sha, a, b)
    requires a[i].ts < Power256(8) && b[i].ts < Power256(8)
    ensures SameRecord(a[i], b[i]) <==> SameShape(a[i], b[i])
  {
    hide Canonical, Head, Verify, SameRecord, SameShape, NoCollision, Power256;
    SameHeadSameHistory(sha, a, b, i);
    RecordBoundIff(a[i], b[i]);
  }

  /** Logs of one record each, with equal canonical bytes: both are accepted, with the same head. */
  lemma SameBytesSameHead(sha: Digest, a: Event, b: Event)
    requires Plain(a.meta) == a.meta && Plain(b.meta) == b.meta && Canonical(a) == Canonical(b)
    ensures Verify(sha, [Linked(sha, GENESIS, a)]).Ok? && Verify(sha, [Linked(sha, GENESIS, b)]).Ok?
    ensures Head([Linked(sha, GENESIS, a)]) == Head([Linked(sha, GENESIS, b)])
  {
    hide Canonical, Verify, Linked, Head, Plain;
    SingletonVerifies(sha, a);
    SingletonVerifies(sha, b);
  }

  /** Moving a byte from the actor to the action keeps an accepted log accepted, with the same head. */
  lemma BoundaryShift(sha: Digest, id: Text, ts: nat, x: byte, y: byte, target: Text)
    ensures var a := Linked(sha, GENESIS, Event(id, ts, [x, y], [y], target, Allow, map[]));
            var b := Linked(sha, GENESIS, Event(id, ts, [x], [y, y], target, Allow, map[]));
            && Verify(sha, [a]).Ok? && Verify(sha, [b]).Ok?
            && Head([a]) == Head([b]) && a.actor != b.actor
  {
    var ea, eb := Event(id, ts, [x, y], [y], target, Allow, map[]), Event(id, ts, [x], [y, y], target, Allow, map[]);
    ShiftedBytes(id + LittleEndian(ts, 8), x, y, target, LittleEndian(0, 4));
    assert Plain(ea.meta) == ea.meta && Plain(eb.meta) == eb.meta;
    assert FixedBytes(ea) == FixedBytes(eb);
    hide FixedBytes, PlainBytes, Verify, Head;
    SameBytesSameHead(sha, ea, eb);
  }

  lemma LinkedKeepsPlain(sha: Digest, prev: Text, e: Event)
    ensures Plain(Linked(sha, prev, e).meta) == Plain(e.meta)
  {
    hide ChainHash;
  }

  lemma OnlyKey(k: Text)
    ensures SortedKeys({k}) == [k]
  {
    var ks := SortedKeys({k});
    assert multiset({k}) == multiset{k};
    assert |multiset(ks)| == |ks| == 1;
    assert ks[0] in multiset(ks);
  }

  lemma OneEntryBytes(k: Text, v: Text)
    requires k != HASH_KEY && k != PREV_KEY
    ensures Plain(map[k := v]) == map[k := v] && PlainBytes(map[k := v]) == k + v
  {
    var meta := map[k := v];
    assert Plain(meta) == meta;
    assert meta.Keys == {k};
    OnlyKey(k);
    hide SortedKeys;
    assert MetaBytes(meta, [k]) == MetaBytes(meta, []) + k + v by {
      assert [k][..0] == [];
    }
    assert [] + k == k;
  }

  lemma ShiftedEntry(x: byte, y: byte, z: byte)
    ensures var ma: map<Text, Text>, mb: map<Text, Text> := map[[x] := [y, z]], map[[x, y] := [z]];
            Plain(ma) == ma && Plain(mb) == mb && PlainBytes(ma) == PlainBytes(mb) && ma != mb
  {
    hide PlainBytes, Plain;
    var ma: map<Text, Text>, mb: map<Text, Text> := map[[x] := [y, z]], map[[x, y] := [z]];
    assert |HASH_KEY| == 11 && |PREV_KEY| == 11;
    OneEntryBytes([x], [y, z]);
    OneEntryBytes([x, y], [z]);
    assert [x] + [y, z] == [x, y] + [z];
    assert |[x]| != |[x, y]|;
    assert [x] in ma && [x] !in mb;
  }

  /** Moving a byte from a metadata value to its key does the same. */
  lemma MetadataShift(sha: Digest, e: Event, x: byte, y: byte, z: byte)
    ensures var a := Linked(sha, GENESIS, e.(meta := map[[x] := [y, z]]));
            var b := Linked(sha, GENESIS, e.(meta := map[[x, y] := [z]]));
            && Verify(sha, [a]).Ok? && Verify(sha, [b]).Ok?
            && Head([a]) == Head([b]) && Plain(a.meta) != Plain(b.meta)
  {
    hide PlainBytes, Plain, Verify, Head, Linked, LittleEndian;
    var ea, eb := e.(meta := map[[x] := [y, z]]), e.(meta := map[[x, y] := [z]]);
    ShiftedEntry(x, y, z);
    assert FixedBytes(ea) == FixedBytes(eb);
    SameBytesSameHead(sha, ea, eb);
    LinkedKeepsPlain(sha, GENESIS, ea);
    LinkedKeepsPlain(sha, GENESIS, eb);
  }

  lemma ShiftedBytes(front: seq<byte>, x: byte, y: byte, target: seq<byte>, last: seq<byte>)
    ensures front + [x, y] + [y] + target + last == front + [x] + [y, y] + target + last
  {
    assert front + [x, y] + [y] == front + [x] + [y, y];
  }

  lemma SingletonVerifies(sha: Digest, e: Event)
    ensures Verify(sha, [Linked(sha, GENESIS, e)]).Ok?
    ensures Head([Linked(sha, GENESIS, e)]) == ChainHash(sha, GENESIS, e.(meta := Plain(e.meta)))
  {
    hide ChainHash;
    KeysDiffer();
    LinkedVerifies(sha, GENESIS, e);
    var es := [Linked(sha, GENESIS, e)];
    assert es[..0] == [];
    assert Verify(sha, []) == Ok(GENESIS);
  }
}
