# Verified models of the TPT protocol cores

This project models the parts of the repository whose correctness is hard to see from the code alone, and
proves what they promise. Code that updates state is modelled by methods, classes and arrays that are proved
against functions on values; the main results are theorems about those functions, over every input and every
run.

| component | modules | main results |
|---|---|---|
| Shamir sharing over GF(256) | `Gf256`, `GfBytes`, `Polynomials`, `Shamir`, `ShareHex` (on `Fields`, `Monoids`) | the shift-and-XOR product makes bytes a field; any threshold-sized subset of shares reconstructs the secret, also from stored text; one share less fixes nothing |
| AES key wrap and DIDComm envelopes | `KeyWrap`, `Sorting`, `DidComm` | wrap follows the steps of the standard and unwrap accepts exactly its images; the derived key binds secrets, mode and parties; unpacking returns the packed message exactly when some recipient key is held |
| Per-IP rate limiter | `RateLimiter` | what a bucket earns, the admission bound of every window, and exactly when it and the invisibility of eviction hold |
| Connection pool | `Pool` | safety of every interleaving of lock sections |
| OAuth codes, refresh tokens, device codes, pushed requests | `Tokens`, `Grants` | single, timely redemption and grant preservation along rotation chains in every run; every request is granted exactly when the earlier requests and answers entitle it |
| Access-token revocation | `Revocation` | in every interleaving a revoked token stays inactive, except for exactly the calls that end within the last second of its life |
| Postgres wire clients | `PgWire`, `PgSession` | what the server encodes the clients decode; the k-th query consumes exactly the k-th response however the bytes are split |
| SD-JWT credentials | `SdJwt` | a presentation discloses exactly the named claims; the exact condition under which any token is accepted; nothing unsigned or unissued is |
| CSV export and import, WebSocket frames | `Csv`, `WebSocket` | the reader undoes the writer |
| Migration row checksums, audit hash chain | `RowChecksum`, `AuditChain` | unique decodability; equal heads mean equal histories, and exactly when equal records |

Cryptographic primitives, JSON and base64 are function-valued parameters constrained by stated laws (a block
cipher is a permutation, Diffie-Hellman is symmetric, decryption undoes encryption). Hashes are arbitrary
functions; a theorem that needs the absence of collisions assumes it only for the finitely many inputs it
mentions. Random values, clock readings and what the network delivers are parameters.

Where the code does not keep a promise that its documentation or design suggests, the model follows the code
and the project states exactly when the promise holds: `RateLimiter.BoundHoldsIff`,
`RateLimiter.EvictionInvisibleIff`, `Pool.ReleaseKeepsIff`, `Revocation.RevokedButActive`,
`Revocation.ActiveOnlyInLastSecond`, `PgSession.QueryAlignedIff`, `PgWire.RowReadBackIff`,
`SdJwt.KeyBindingAcceptedIff`, `SdJwt.PresentedVerifiesIff`, `Csv.RoundTrip`, `RowChecksum.RowDecodesIff`,
`ShareHex.ShareRoundTrip`, `DidComm.UnpackUndoesPack`, `AuditChain.RecordBoundIff`.

`dafny verify dfyconfig.toml` checks the whole project.

## Model

| member | source | states |
|---|---|---|
| Gf256.ReductionPolynomial | services/identity/pkg/recovery/recovery.go:110-124 | multiplying by x eight times equals multiplying by x^4+x^3+x+1, for every element, by linearity from the case of one |
| Gf256.MulCommutes | services/identity/pkg/recovery/recovery.go:110-124 | the shift-and-add product of reduced polynomials is commutative |
| Gf256.MulAssociates | services/identity/pkg/recovery/recovery.go:110-124 | the product is associative |
| Gf256.MulOfSumRight | services/identity/pkg/recovery/recovery.go:110-124 | the product distributes over addition in its right argument |
| Gf256.FermatInverse | services/identity/pkg/recovery/recovery.go:134-148 | a times a^254 is one for every nonzero a, proved from the order of squaring |
| GfBytes.GfIsField | services/identity/pkg/recovery/recovery.go:110-148 | bytes under XOR, the source's product and its inverse are a field of characteristic two |
| GfBytes.MulRoundsMultiply | services/identity/pkg/recovery/recovery.go:110-124 | eight rounds of the byte loop multiply the polynomials whose coefficients are the bits |
| GfBytes.GfMulLoop | services/identity/pkg/recovery/recovery.go:110-124 | the loop with its carry test, shifts and reduction runs those eight rounds |
| GfBytes.GfMul | services/identity/pkg/recovery/recovery.go:110-124 | returns the field product |
| GfBytes.GfInv | services/identity/pkg/recovery/recovery.go:134-148 | the square-and-multiply loop over exponent 254 returns the field inverse (zero for zero) |
| Polynomials.Division | services/identity/pkg/recovery/recovery.go:126-132 | a polynomial is its value at r plus (x + r) times its quotient |
| Polynomials.WeightsSumToOne | services/identity/pkg/recovery/recovery.go:150-165 | the interpolation weights of distinct points add up to one |
| Polynomials.LagrangeAtZero | services/identity/pkg/recovery/recovery.go:150-165 | the weighted sum of at least as many samples as coefficients, at distinct points, is the value at zero |
| Polynomials.TooManyRoots | services/identity/pkg/recovery/recovery.go:126-132 | a polynomial with as many distinct roots as coefficients is zero |
| Polynomials.InterpolantUnique | services/identity/pkg/recovery/recovery.go:126-132 | at most one polynomial of given length takes given values |
| Polynomials.InterpolantExists | services/identity/pkg/recovery/recovery.go:126-132 | some polynomial of that length takes them |
| Shamir.GfPolyEval | services/identity/pkg/recovery/recovery.go:126-132 | the backward loop evaluates the polynomial |
| Shamir.GfLagrange | services/identity/pkg/recovery/recovery.go:150-165 | the nested loops compute the weighted sum of the samples |
| Shamir.FillColumn | services/identity/pkg/recovery/recovery.go:63-65 | one byte position of every share is overwritten in place with the value of that byte's polynomial, nothing else |
| Shamir.Split | services/identity/pkg/recovery/recovery.go:42-68 | the three error cases, and otherwise share i holds every byte's polynomial at i+1 |
| Shamir.Combine | services/identity/pkg/recovery/recovery.go:72-95 | the two error cases, and otherwise byte by byte interpolation at zero |
| Shamir.Reconstruction | services/identity/pkg/recovery/recovery.go:42-95 | for every secret, valid threshold and count and all coefficients, any threshold or more distinct shares, in any order, combine to the secret |
| Shamir.SplitThenCombine | services/identity/pkg/recovery/recovery.go:42-95 | the loops run one after the other return the secret |
| Shamir.Secrecy | services/identity/pkg/recovery/recovery.go:55-66 | t-1 shares are explained by every candidate secret, with exactly one choice of coefficients |
| Shamir.EverySecretPossible | services/identity/pkg/recovery/recovery.go:55-66 | coefficients explaining the seen shares exist for every candidate |
| Shamir.ExplanationUnique | services/identity/pkg/recovery/recovery.go:55-66 | two explanations of the same shares by the same secret are equal |
| Shamir.SplitExplains | services/identity/pkg/recovery/recovery.go:55-66 | what Split hands out is explained by its own secret and draws |
| Shamir.SharesIndexed | services/identity/pkg/recovery/recovery.go:50-53 | the i-th share carries index i + 1, never zero, and a value as long as the secret |
| Shamir.SplitView | services/identity/pkg/recovery/recovery.go:50-66 | any distinct shares handed out have distinct nonzero indices |
| Shamir.SplitSecrecy | services/identity/pkg/recovery/recovery.go:42-68 | what any t-1 guardians see of a split secret they would see of every other secret of that length, under exactly one choice of coefficients |
| ShareHex.HexRoundTrip | services/identity/pkg/recovery/recovery.go:19-38 | decoding undoes hexadecimal encoding |
| ShareHex.ShareRoundTrip | services/identity/pkg/recovery/recovery.go:19-38 | parsing a printed share returns it exactly when its value is not empty, and the format error otherwise |
| ShareHex.ParsedShareText | services/identity/pkg/recovery/recovery.go:25-38 | a text parses to a share if and only if it is that share's text up to the case of its digits and the share has a value |
| ShareHex.StoredReconstruction | services/identity/pkg/recovery/recovery.go:19-95 | reconstruction from shares that were printed and parsed again |
| KeyWrap.AesKeyWrap | services/identity/pkg/didcomm/didcomm.go:417-444 | length errors, and otherwise the in-place loops compute the six forward passes |
| KeyWrap.WrapRound | services/identity/pkg/didcomm/didcomm.go:432-437 | one round updates A and one block of R in place and leaves the other blocks alone |
| KeyWrap.AesKeyUnwrap | services/identity/pkg/didcomm/didcomm.go:446-474 | length and integrity errors, and otherwise the six backward passes |
| KeyWrap.UnwrapRound | services/identity/pkg/didcomm/didcomm.go:462-467 | one backward round in place |
| KeyWrap.UnwrapUndoesWrap | services/identity/pkg/didcomm/didcomm.go:417-474 | for every block permutation, unwrapping a wrapped plaintext returns it |
| KeyWrap.WrapUndoesUnwrap | services/identity/pkg/didcomm/didcomm.go:417-474 | a ciphertext that unwraps to p is the wrap of p |
| KeyWrap.UnwrapAcceptsExactly | services/identity/pkg/didcomm/didcomm.go:446-474 | unwrap yields p if and only if wrap of p yields the ciphertext |
| KeyWrap.WrapFollowsStandard | services/identity/pkg/didcomm/didcomm.go:417-444 | wrapping yields w if and only if lengths are valid and 6n steps, as section 2.2.1 of RFC 3394 indexes them, lead from eight bytes A6 and the plaintext to w |
| KeyWrap.StepIsWrapStep | services/identity/pkg/didcomm/didcomm.go:432-437 | one round is the step of the standard: block (t-1) mod n, counter t into A, no other block |
| KeyWrap.IdentityWrap | services/identity/pkg/didcomm/didcomm.go:417-444 | under the identity cipher the plaintext follows eight bytes A6 with all counters from 1 to 6n added |
| Sorting.SortOfPermutation | services/identity/pkg/didcomm/didcomm.go:125-131 | sorting forgets the order of the recipient identifiers |
| DidComm.HeaderIgnoresOrder | services/identity/pkg/didcomm/didcomm.go:125-145 | the protected header, hence every derived key, is the same for any order of the recipients |
| DidComm.KeksAgree | services/identity/pkg/didcomm/didcomm.go:337-411 | sender and recipient derive the same key-encryption key in both modes |
| DidComm.KdfReadBack | services/identity/pkg/didcomm/didcomm.go:381-411 | a reader of section 4.6.2 of RFC 7518 recovers counter 1, the shared secret, the three fields and key length 256 from the hashed bytes |
| DidComm.ConcatKdfBinds | services/identity/pkg/didcomm/didcomm.go:381-411 | without a collision equal derived keys mean equal shared secrets, algorithms and parties |
| DidComm.KekBinds | services/identity/pkg/didcomm/didcomm.go:337-411 | two derivations agree only if mode, agreed secrets, sender identifier and digest of the recipients do |
| DidComm.ApvBindsRecipients | services/identity/pkg/didcomm/didcomm.go:125-131 | for identifiers without dots the recipients' digest changes with the recipients and with nothing else |
| DidComm.EntryOpens | services/identity/pkg/didcomm/didcomm.go:160-302 | a recipient's entry yields the content key if that recipient's key is held, and nothing otherwise |
| DidComm.ScanFindsCek | services/identity/pkg/didcomm/didcomm.go:262-302 | the scan over entries finds the content key exactly when some recipient's key is held |
| DidComm.ContentOpens | services/identity/pkg/didcomm/didcomm.go:195-216 | the sealed content, split into ciphertext and tag and joined again, opens to the message |
| DidComm.ContentAcceptedIff | services/identity/pkg/didcomm/didcomm.go:308-332 | content opens to a message if and only if it is the sealing of that message under key, nonce and protected header |
| DidComm.HeaderIsBound | services/identity/pkg/didcomm/didcomm.go:202-206 | a changed header is rejected unless the content is also a sealing under it |
| DidComm.EntryAcceptedIff | services/identity/pkg/didcomm/didcomm.go:262-302 | an entry yields a key if and only if it is held, well formed, and wraps that key under the agreed one |
| DidComm.ScanFindsFirst | services/identity/pkg/didcomm/didcomm.go:262-302 | the scan returns the key of the first entry that opens |
| DidComm.UnknownModeOpensNothing | services/identity/pkg/didcomm/didcomm.go:277-286 | nothing opens under any other algorithm name |
| DidComm.UnresolvedSenderRejected | services/identity/pkg/didcomm/didcomm.go:248-258 | a named sender who cannot be resolved is an error |
| DidComm.UnpackUndoesPack | services/identity/pkg/didcomm/didcomm.go:119-333 | unpacking returns message and sender identifier if and only if some recipient key is held and, in authcrypt, the sender has an identifier; identifiers that are not UTF-8 arrive as JSON coerces them |
| DidComm.NamelessSenderNeverUnpacks | services/identity/pkg/didcomm/didcomm.go:248-287 | authcrypt with an empty sender identifier packs but never unpacks |
| DidComm.ComputeApv | services/identity/pkg/didcomm/didcomm.go:479-489 | the joining loop hashes the identifiers separated by dots |
| DidComm.PackEnvelope | services/identity/pkg/didcomm/didcomm.go:119-216 | packing step by step, with every failure, yields the specified envelope |
| DidComm.PackSucceedsIff | services/identity/pkg/didcomm/didcomm.go:119-193 | packing succeeds if and only if there is a recipient and every key agreement succeeds |
| DidComm.WrapForAll | services/identity/pkg/didcomm/didcomm.go:160-193 | one entry per recipient in order, or the failure of the first failing recipient |
| DidComm.WrapFor | services/identity/pkg/didcomm/didcomm.go:162-192 | one recipient's entry, by mode |
| DidComm.Unpack | services/identity/pkg/didcomm/didcomm.go:227-333 | unpacking step by step, with every failure, including the panic on a nonce of the wrong length |
| DidComm.HeaderArrives | services/identity/pkg/didcomm/didcomm.go:133-158 | the protected header arrives as sent, up to the coercion of the sender identifier |
| DidComm.FindClean | services/identity/pkg/didcomm/didcomm.go:262-302 | scanning the entries that arrived equals scanning those sent, with keys looked up under the coerced identifiers |
| DidComm.OpenEntry | services/identity/pkg/didcomm/didcomm.go:262-302 | one pass of the scan, skipping entries that do not open |
| RateLimiter.IpRateLimiter.constructor | services/identity/api/server.go:470-479 | a new limiter has no buckets |
| RateLimiter.IpRateLimiter.Allow | services/identity/api/server.go:481-501 | refill, cap, spend and answer, and no other bucket changes |
| RateLimiter.IpRateLimiter.Evict | services/identity/api/server.go:503-512 | exactly the entries idle for more than ten minutes are dropped |
| RateLimiter.RunKeepsValid | services/identity/api/server.go:481-512 | in every run tokens stay between zero and the capacity |
| RateLimiter.WaitEarnsExactly | services/identity/api/server.go:488-494 | waiting earns exactly the rate, up to the capacity |
| RateLimiter.PacedClientNeverRefused | services/identity/api/server.go:481-512 | a client whose requests are one token apart is never refused, whatever others do and whenever entries are evicted |
| RateLimiter.WiredCapacityIs | services/identity/api/server.go:131 | the wired capacity is twice the rate, rounded down |
| RateLimiter.Budget | services/identity/api/server.go:481-512 | over a run, admissions plus what is left never exceed what was there plus what was earned |
| RateLimiter.WindowBound | services/identity/api/server.go:481-512 | in any window of length d one address is admitted at most capacity + rate * d times |
| RateLimiter.EvictionDoublesBurst | services/identity/api/server.go:503-512 | a run in which eviction lets two full bursts through |
| RateLimiter.BoundHoldsIff | services/identity/api/server.go:481-512 | the bound holds for every window of every run if and only if ten minutes refill the bucket |
| RateLimiter.EvictionUnseen | services/identity/api/server.go:131 | with capacity twice the rate as wired, a limiter that evicts at arbitrary times answers as one that never does |
| RateLimiter.EvictionSeen | services/identity/api/server.go:503-512 | with a larger capacity some run shows the difference |
| RateLimiter.EvictionInvisibleIff | services/identity/api/server.go:481-512 | eviction is invisible if and only if ten minutes refill the bucket |
| Pool.ConnPool.NewPool | crates/keystone/sdk-go/pool.go:69-91 | defaults, clamping of MinIdle, eager dialing in order, and failure exactly if some dial fails |
| Pool.EffectiveLimits | crates/keystone/sdk-go/pool.go:69-80 | the limit is at least one and as configured when positive; eager dials are clamped to it |
| Pool.ConnPool.Acquire | crates/keystone/sdk-go/pool.go:125-161 | one pass of the loop: closed, cancelled, an idle connection that is not broken, a slot to dial, or wait |
| Pool.AcquireOutcome | crates/keystone/sdk-go/pool.go:125-161 | which way a pass goes: the last usable idle connection is handed out; without one, a connection is dialed if and only if the limit leaves a slot |
| Pool.ConnPool.DialFailed | crates/keystone/sdk-go/pool.go:152-154 | a failed dial gives its slot back |
| Pool.ConnPool.Release | crates/keystone/sdk-go/pool.go:167-178 | a connection goes back to the idle list, or is closed and its slot freed |
| Pool.ReleasedIsReused | crates/keystone/sdk-go/pool.go:125-178 | a healthy connection released to an open pool is the next one handed out |
| Pool.ReleasedMakesRoom | crates/keystone/sdk-go/pool.go:167-178 | a broken connection released at the limit makes room for a dial |
| Pool.ConnPool.Close | crates/keystone/sdk-go/pool.go:183-199 | closing empties the idle list once |
| Pool.ClosedForGood | crates/keystone/sdk-go/pool.go:183-199 | a closed pool stays closed in every run and hands out nothing |
| Pool.ClosedLeaksNothing | crates/keystone/sdk-go/pool.go:183-199 | after Close and the last release no connection is open |
| Pool.StepKeeps | crates/keystone/sdk-go/pool.go:109-199 | every enabled lock section keeps the accounting and the exclusivity of connections |
| Pool.RunKeeps | crates/keystone/sdk-go/pool.go:109-199 | so does every run |
| Pool.InvariantIsSafe | crates/keystone/sdk-go/pool.go:109-199 | the invariant implies the limit on open connections and that no connection has two owners |
| Pool.EveryRunSafe | crates/keystone/sdk-go/pool.go:69-199 | in every interleaving from a new pool, numOpen stays within MaxOpen, no connection is held twice or both idle and held, and until Close numOpen counts idle, held and dialing |
| Pool.ReleaseKeepsIff | crates/keystone/sdk-go/pool.go:167-178 | a release keeps the invariant if and only if the caller holds the connection |
| Pool.DoubleReleaseSharesConnection | crates/keystone/sdk-go/pool.go:167-178 | after a double release two callers get the same connection |
| Tokens.Provider.StoreRefresh | services/identity/internal/store/sqlite.go:685-692 | saving an existing hash changes only its use mark |
| Tokens.UpsertKeepsGrant | services/identity/internal/store/sqlite.go:685-692 | an upsert keeps whose token it is and every other row |
| Tokens.Provider.HandleAuthorize | services/identity/oidc/provider.go:50-140 | request resolution, every rejection, and the session row of a new code |
| Tokens.Provider.HandleExchange | services/identity/oidc/provider.go:170-246 | every rejection, and the redemption of a code for a refresh token |
| Tokens.Provider.HandleRefresh | services/identity/oidc/provider.go:248-309 | every rejection, and the rotation of a refresh token |
| Tokens.Provider.HandleApprove | services/identity/oidc/device.go:106-131 | approval of a live device code by its user code |
| Tokens.Provider.HandleDeviceGrant | services/identity/oidc/device.go:134-197 | polling answers, and the redemption of an approved device code |
| Tokens.Provider.HandleDeviceAuthorization | services/identity/oidc/device.go:24-74 | a new device code row, unless its user code is taken |
| Tokens.Provider.HandlePar | services/identity/oidc/par.go:20-87 | a pushed request is stored under its request_uri |
| Tokens.RedeemKeeps | services/identity/oidc/provider.go:185-246 | redeeming a code or device code keeps the ledger invariant and starts a chain |
| Tokens.RotateKeeps | services/identity/oidc/provider.go:264-308 | rotating a refresh token keeps the invariant and continues its chain |
| Tokens.ParSpentKeeps | services/identity/oidc/par.go:91-106 | resolving a request_uri keeps the invariant and spends it |
| Tokens.StepKeeps | services/identity/oidc/provider.go:50-309 | every handler step with new random values keeps the invariant |
| Tokens.RunKeeps | services/identity/oidc/provider.go:50-309 | so does every run of handler steps |
| Tokens.RedeemedAtMostOnce | services/identity/oidc/provider.go:170-309 | in every run each code, device code, refresh token and request_uri is redeemed at most once and never after its expiry |
| Tokens.EveryGrantIsRecorded | services/identity/oidc/provider.go:170-309 | in every run each token response appends exactly the redemption of the secret presented, so the previous result bounds the responses |
| Tokens.ChainsKeepTheirGrant | services/identity/oidc/provider.go:228-308 | in every run each stored refresh token carries the subject, client and scope at the root of its chain, and each chain has at most one unused token |
| Tokens.ResponsesFollowTheGrant | services/identity/oidc/device.go:183-195 | every token response names the subject, client and scope granted at the root |
| Grants.AnsweredAsOwed | services/identity/oidc/provider.go:50-309 | in every run every request is answered as the earlier requests and answers demand, kept as a history that never looks at the tables |
| Grants.ExchangeGrantedIff | services/identity/oidc/provider.go:170-246 | a code is exchanged if and only if it is outstanding and unexpired and the request names no other client, authenticates it, and proves the challenge of the authorization request, pushed parameters included |
| Grants.RefreshGrantedIff | services/identity/oidc/provider.go:248-309 | a refresh token is rotated if and only if it is outstanding and unexpired and its client authenticates |
| Grants.DeviceGrantedIff | services/identity/oidc/device.go:134-197 | a device code is redeemed if and only if it is outstanding, unexpired and approved and no other client is named; the subject is the approver |
| Grants.AuthorizeOwed | services/identity/oidc/provider.go:50-140 | a code is issued if and only if the settled parameters are complete and the redirect is registered |
| Grants.ApproveOwed | services/identity/oidc/device.go:106-131 | a device is approved if and only if an outstanding unexpired code has that user code |
| Grants.StepMatches | services/identity/oidc/provider.go:50-309 | every step keeps tables and history in agreement |
| Grants.RunMatches | services/identity/oidc/provider.go:50-309 | so does every run |
| Revocation.RevocationList.IsAccessTokenRevoked | services/identity/oidc/revocation.go:25-41 | the answer, and the lazy deletion of an expired entry |
| Revocation.RevocationList.Revoke | services/identity/oidc/revocation.go:86-98 | a token that parses and has not expired gets an entry until its expiry |
| Revocation.RevocationList.Introspect | services/identity/oidc/introspect.go:37-70 | the sequence of checks with its three clock readings |
| Revocation.RevokedButActive | services/identity/oidc/introspect.go:37-57 | a listed token is reported active if and only if the list is read after the expiry instant and the answer given before the next whole second |
| Revocation.ActiveIff | services/identity/oidc/introspect.go:37-57 | for every list, the exact condition under which a token is reported active |
| Revocation.ListChangesOnlyWhenOverdue | services/identity/oidc/revocation.go:25-41 | introspection deletes only the token's own entry, exactly when it is overdue |
| Revocation.RevokedIsListed | services/identity/oidc/revocation.go:86-98 | revoking lists an unexpired token until its expiry and changes no other entry |
| Revocation.UnrevokedAnsweredByClock | services/identity/oidc/introspect.go:37-57 | in every interleaving a token whose hash is never revoked is answered by signature and clock alone |
| Revocation.RevokedStaysInactive | services/identity/oidc/introspect.go:37-57 | with whole-second readings it never is |
| Revocation.ActiveOnlyInLastSecond | services/identity/oidc/introspect.go:37-57 | in every interleaving and under any monotone clock, some call begun after the revocation has reported the token active if and only if such a call took its last clock reading strictly between the expiry instant and the next whole second |
| Revocation.LateFinish | services/identity/oidc/jwt.go:107-109 | the answer of one such call, by its last clock reading |
| Revocation.RevokedForGood | services/identity/oidc/revocation.go:25-98 | once on the list, no later call reports the token active, in any interleaving of calls, revocations and lazy deletions in which no last reading falls inside that second |
| Revocation.RevokedForGoodWholeSeconds | services/identity/oidc/revocation.go:25-98 | in particular never when those readings are whole seconds |
| Revocation.SubSecondCounterexample | services/identity/oidc/introspect.go:37-57 | a token revoked at second 0 and expiring at second 1 is reported active half a second after expiry |
| PgWire.WriteMessage | crates/keystone/tpt-keystone/src/wire/messages.rs:363-371 | patching the placeholder yields tag, length word and body behind the buffer |
| PgWire.DecodeEncoded | crates/keystone/tpt-keystone/src/wire/messages.rs:196-347 | both clients decode every message body the server encodes to its meaning |
| PgWire.RowReadBackIff | crates/keystone/tpt-keystone/src/wire/messages.rs:255-268 | a data row is read back if and only if it has fewer than 65536 columns in Go and fewer than 32768 in Rust: the count is written into 16 bits and read as unsigned or signed |
| PgWire.CellsRoundTrip | crates/keystone/sdk-go/wire.go:321-341 | the first n cells are read back whatever follows |
| PgWire.ErrorRoundTrip | crates/keystone/sdk-go/wire.go:224-242 | the message field is found among the error fields |
| PgWire.LastMessageFound | crates/keystone/sdk-go/wire.go:224-242 | whatever fields are sent, the last message field is reported |
| PgWire.TakeEncoded | crates/keystone/sdk-go/wire.go:246-266 | the first message of a stream is what the server framed, and the rest is untouched |
| PgWire.CutMessage | crates/keystone/sdk-go/wire.go:246-266 | a message cut short anywhere is not taken |
| PgWire.BadLengthRefused | crates/keystone/sdk-go/wire.go:251-254 | a length word below four, negative ones included, is refused |
| PgWire.ClampedCell | crates/keystone/sdk-go/wire.go:332-339 | a cell that claims more bytes than the body has takes what is there |
| PgWire.EncodedCarries | crates/keystone/tpt-keystone-harbor/src/pgwire.rs:117-197 | a whole encoded response is read message by message down to the bytes behind it |
| PgWire.ReadCString | crates/keystone/sdk-go/wire.go:210-222 | text up to the NUL and the position behind it |
| PgWire.DecodeCells | crates/keystone/sdk-go/wire.go:321-341 | the loop reads the cells of a data row, clamping a cell to the body |
| PgWire.DecodeColumns | crates/keystone/sdk-go/wire.go:305-320 | the loop reads names and type oids and skips the other attributes |
| PgWire.DecodeTypes | crates/keystone/sdk-go/wire.go:354-362 | the loop reads the parameter types |
| PgWire.DecodeErrorText | crates/keystone/tpt-keystone-harbor/src/pgwire.rs:217-233 | the loop returns the last message field, or the default text |
| PgWire.DecodeBody | crates/keystone/sdk-go/wire.go:286-372 | dispatch on the tag, for either client |
| PgWire.GoWire.ReadFull | crates/keystone/sdk-go/wire.go:268-284 | fills the buffer with the next bytes however the reads split them, and fails exactly when the stream is too short |
| PgWire.GoWire.ReadMessage | crates/keystone/sdk-go/wire.go:246-266 | one message off the stream, depending only on the bytes and not on their split |
| PgWire.RustWire.Fill | crates/keystone/tpt-keystone-harbor/src/pgwire.rs:199-207 | buffers at least n bytes without changing the stream, and fails exactly when it is too short |
| PgWire.RustWire.ReadMessage | crates/keystone/tpt-keystone-harbor/src/pgwire.rs:117-197 | one message off buffer and stream |
| PgSession.GoConn.Receive | crates/keystone/sdk-go/conn.go:134-170 | a failed read leaves the connection broken for good |
| PgSession.GoConn.Query | crates/keystone/sdk-go/conn.go:209-243 | refuses a broken connection, reports a failed flush, and otherwise primes a cursor |
| PgSession.RowsCursor.PrimeColumns | crates/keystone/sdk-go/rows.go:41-71 | reads to the first NoData, RowDescription or error, draining after an error |
| PgSession.RowsCursor.Next | crates/keystone/sdk-go/rows.go:86-127 | one step of the cursor: a row, or the end with its error and tag |
| PgSession.RowsCursor.Advance | crates/keystone/sdk-go/rows.go:90-126 | the read loop of one step |
| PgSession.RowsCursor.DrainToReady | crates/keystone/sdk-go/rows.go:132-147 | reads to the next ReadyForQuery |
| PgSession.RowsCursor.Close | crates/keystone/sdk-go/rows.go:152-162 | exhausts an unfinished cursor, once |
| PgSession.DrainsResponse | crates/keystone/sdk-go/rows.go:132-147 | draining a response leaves exactly the bytes behind it |
| PgSession.FinishesResponse | crates/keystone/sdk-go/rows.go:86-162 | any number of Next calls followed by Close consumes exactly the response and yields its first rows, error and tag |
| PgSession.QueryAlignedIff | crates/keystone/sdk-go/rows.go:41-162 | a query consumes exactly its own response if and only if the response announces columns, their absence or an error; then the outcome is the one the response dictates |
| PgSession.UnannouncedTakesNext | crates/keystone/sdk-go/rows.go:41-71 | otherwise the query returns the outcome of the next response |
| PgSession.UnannouncedResponse | crates/keystone/sdk-go/rows.go:66-68 | a concrete response of that kind on the wire |
| PgSession.BrokenOffQuery | crates/keystone/sdk-go/rows.go:41-162 | a response that breaks off leaves the connection broken, and the query with an error unless the server had suspended it |
| PgSession.BrokenRefuses | crates/keystone/sdk-go/conn.go:209-212 | a broken connection refuses every later query |
| PgSession.GoDeliversAllRows | crates/keystone/sdk-go/rows.go:86-127 | a response without error or suspension delivers all its rows in order |
| PgSession.GoSessionAligned | crates/keystone/sdk-go/conn.go:209-243 | in a session of encoded responses the k-th outcome is dictated by the k-th response and the bytes after the last are untouched |
| PgSession.RunQuery | crates/keystone/sdk-go/conn.go:209-243 | query, n steps and close on the objects |
| PgSession.RunGoSession | crates/keystone/sdk-go/conn.go:209-243 | the same session on the objects, for every split of the bytes into reads |
| PgSession.LoopFollowsResponse | crates/keystone/tpt-keystone-harbor/src/pgwire.rs:286-309 | the loop consumes exactly the response and gathers the rows since the last column description |
| PgSession.RustQueryAligned | crates/keystone/tpt-keystone-harbor/src/pgwire.rs:277-312 | a query consumes exactly its own response, on success and on server error |
| PgSession.BrokenOffLoop | crates/keystone/tpt-keystone-harbor/src/pgwire.rs:286-309 | a response that breaks off is an error |
| PgSession.RustDeliversAllRows | crates/keystone/tpt-keystone-harbor/src/pgwire.rs:286-311 | with one column description ahead of the rows, all rows arrive in order under its names |
| PgSession.RustClient.Query | crates/keystone/tpt-keystone-harbor/src/pgwire.rs:277-312 | the loop with its accumulators |
| PgSession.RustClient.Drain | crates/keystone/tpt-keystone-harbor/src/pgwire.rs:299-303 | the inner loop after an error |
| PgSession.RustSessionAligned | crates/keystone/tpt-keystone-harbor/src/pgwire.rs:277-312 | the k-th query of a session is answered by the k-th response |
| PgSession.RunRustSession | crates/keystone/tpt-keystone-harbor/src/pgwire.rs:117-312 | the same on the objects, for every split of the bytes into reads |
| SdJwt.Issue | services/identity/pkg/vc/sdjwt.go:189-247 | the four rejections, and otherwise one disclosure per selective claim and the signed payload with their digests |
| SdJwt.IssuedIff | services/identity/pkg/vc/sdjwt.go:189-209 | issuance succeeds if and only if the issuer is durable and has a key, there is a subject, and the schema is absent or known |
| SdJwt.Present | services/identity/pkg/vc/sdjwt.go:118-163 | the JWT and the disclosures of the named claims, in issuing order |
| SdJwt.SelectedInOrder | services/identity/pkg/vc/sdjwt.go:118-130 | the selection keeps the order and number of what it keeps |
| SdJwt.ParseSdJwt | services/identity/pkg/vc/sdjwt.go:264-285 | the split into JWT, disclosures and key-binding token, or the error |
| SdJwt.ParsedIff | services/identity/pkg/vc/sdjwt.go:264-285 | a token parses if and only if it has a separator, and is then cut at the separators into JWT, disclosures and the last part shaped like a JWT |
| SdJwt.CheckDisclosures | services/identity/pkg/vc/sdjwt.go:366-381 | the claims of all disclosures, or the first malformed or unlisted one |
| SdJwt.Verify | services/identity/pkg/vc/sdjwt.go:322-425 | the sequence of checks, the verified claims and the issue and expiry times |
| SdJwt.AcceptedIff | services/identity/pkg/vc/sdjwt.go:322-425 | any token is accepted if and only if it parses, its JWT verifies under the key its issuer resolves to, has not expired, lists every disclosure, and is bound to its holder where it carries or was asked for a key binding |
| SdJwt.AcceptedWasSigned | services/identity/pkg/vc/sdjwt.go:322-425 | with signatures unforged on that JWT, issuer, subject, type, times, visible claims and digests are those of a payload signed under the issuer's key |
| SdJwt.ParseSerialized | services/identity/pkg/vc/sdjwt.go:155-285 | parsing a serialized token, with or without key binding, returns its parts |
| SdJwt.DisclosedExactly | services/identity/pkg/vc/sdjwt.go:366-381 | disclosures backed by issued claims disclose exactly those claims |
| SdJwt.AcceptedExactly | services/identity/pkg/vc/sdjwt.go:366-381 | without digest collisions a disclosure list is accepted if and only if every entry reads as an issued disclosure |
| SdJwt.PresentedVerifies | services/identity/pkg/vc/sdjwt.go:53-425 | a presentation of an issued, unexpired token verifies and discloses exactly the named selective claims with their values, together with the issuer, the subject, the times and the visible claims |
| SdJwt.PresentedVerifiesIff | services/identity/pkg/vc/sdjwt.go:53-425 | also when a visible claim replaces the digest list: it verifies if and only if the digests of the named disclosures are listed |
| SdJwt.OnlyIssuedClaims | services/identity/pkg/vc/sdjwt.go:322-425 | whatever disclosures accompany the issued JWT, every disclosed claim was issued with that value |
| SdJwt.KeyBindingAcceptedIff | services/identity/pkg/vc/sdjwt.go:135-153 | an otherwise faultless key-bound presentation verifies if and only if hashing with and without the last tilde gives the same hash |
| SdJwt.OverriddenDigests | services/identity/pkg/vc/sdjwt.go:238-240 | with an always-visible claim named _sd and the other checks passing, a presentation is accepted if and only if every disclosure parses and has its digest among the strings of that claim |
| SdJwt.OverriddenByNonList | services/identity/pkg/vc/sdjwt.go:356-364 | a token whose _sd claim is not a list can disclose nothing |
| Csv.RenderCsv | crates/keystone/tpt-keystone-cli/src/format.rs:125-146 | header and rows escaped, joined and terminated line by line |
| Csv.ParseCsv | crates/keystone/tpt-keystone-cli/src/data.rs:37-75 | the character loop with its quote state |
| Csv.Retain | crates/keystone/tpt-keystone-cli/src/data.rs:73 | drops the rows that are one empty field |
| Csv.FieldScan | crates/keystone/tpt-keystone-cli/src/format.rs:125-131 | an escaped field scans back to the field, with any quotes, commas and line breaks in it |
| Csv.LineScan | crates/keystone/tpt-keystone-cli/src/data.rs:37-75 | a rendered line scans to one row |
| Csv.ParseOfRender | crates/keystone/tpt-keystone-cli/src/data.rs:37-75 | for every table, parsing the export gives the non-blank lines |
| Csv.RoundTrip | crates/keystone/tpt-keystone-cli/src/format.rs:133-146 | the export reads back as header and rows if and only if there is a column and no line is a single empty field |
| Csv.CellReadBack | crates/keystone/tpt-keystone-cli/src/format.rs:133-146 | each cell comes back as its text, NULL and missing cells as the empty string |
| Csv.CrLfParsesSame | crates/keystone/tpt-keystone-cli/src/data.rs:57-64 | carriage returns before line feeds change nothing |
| Csv.UnterminatedParsesSame | crates/keystone/tpt-keystone-cli/src/data.rs:69-73 | nor does a missing last line feed |
| WebSocket.WriteMaskedTextFrame | crates/keystone/tpt-keystone-cli/src/stream.rs:81-104 | writes the shortest well-formed masked text frame |
| WebSocket.WriteLength | crates/keystone/tpt-keystone-cli/src/stream.rs:88-97 | chooses among the three length forms |
| WebSocket.WriteMasked | crates/keystone/tpt-keystone-cli/src/stream.rs:99-101 | XORs each byte with the mask byte at its position modulo four |
| WebSocket.MaskTwice | crates/keystone/tpt-keystone-cli/src/stream.rs:140-144 | masking twice is the identity |
| WebSocket.MaskIsKey | crates/keystone/tpt-keystone-cli/src/stream.rs:99-101 | each byte sent differs from the payload by the key byte at its position modulo four |
| WebSocket.TextFrameLayout | crates/keystone/tpt-keystone-cli/src/stream.rs:81-104 | final text frame, mask bit, shortest length form, key and masked payload, byte by byte |
| WebSocket.DecodeEncoded | crates/keystone/tpt-keystone-cli/src/stream.rs:109-144 | decoding an encoded frame in any length form returns its payload and leaves what follows |
| WebSocket.ReadAfterSkipped | crates/keystone/tpt-keystone-cli/src/stream.rs:109-151 | ping, pong, binary and continuation frames before a text frame are skipped |
| WebSocket.ReadUndoesWrite | crates/keystone/tpt-keystone-cli/src/stream.rs:81-151 | reading what was written returns the payload through the lossy UTF-8 conversion, the identity on text, and leaves exactly the trailing bytes |
| WebSocket.ReadEndsCleanly | crates/keystone/tpt-keystone-cli/src/stream.rs:109-151 | a close frame or the end of the stream before a whole header ends reading without error |
| WebSocket.ReadFailsWhenCut | crates/keystone/tpt-keystone-cli/src/stream.rs:109-151 | a frame cut short after its second byte is a failure |
| WebSocket.Stream.ReadExact | crates/keystone/tpt-keystone-cli/src/stream.rs:111-118 | the next n bytes, or end of file |
| WebSocket.Unmask | crates/keystone/tpt-keystone-cli/src/stream.rs:140-144 | unmasks the payload array in place |
| WebSocket.ReadLength | crates/keystone/tpt-keystone-cli/src/stream.rs:119-128 | reads the length in any of the three forms |
| WebSocket.ReadBody | crates/keystone/tpt-keystone-cli/src/stream.rs:129-144 | reads mask and payload |
| WebSocket.ReadOne | crates/keystone/tpt-keystone-cli/src/stream.rs:111-144 | reads one frame |
| WebSocket.ReadFrameLoop | crates/keystone/tpt-keystone-cli/src/stream.rs:109-151 | loops to the next text frame, close frame or end, converting text lossily |
| RowChecksum.RowDecodes | crates/keystone/tpt-keystone-harbor/src/verify.rs:15-28 | the row encoding is uniquely decodable for rows of any width with cells under 2^32 bytes |
| RowChecksum.RowDecodesIff | crates/keystone/tpt-keystone-harbor/src/verify.rs:15-28 | a row decodes to itself if and only if all its cells are under 2^32 bytes |
| RowChecksum.EncodingInjective | crates/keystone/tpt-keystone-harbor/src/verify.rs:15-28 | different rows have different encodings |
| RowChecksum.LongCellCollides | crates/keystone/tpt-keystone-harbor/src/verify.rs:15-28 | a cell of exactly 2^32 zero bytes collides with an empty cell followed by NULLs |
| RowChecksum.HashRow | crates/keystone/tpt-keystone-harbor/src/verify.rs:15-28 | the loop hashes the encoding |
| RowChecksum.VerificationExact | crates/keystone/tpt-keystone-harbor/src/verify.rs:30-59 | the verifier passes exactly when the row sequences are equal and otherwise counts differing positions plus the length difference |
| AuditChain.ComputeChainHash | crates/tpt-pantheon-spine-audit-log/src/lib.rs:194-215 | hashes the previous hash and the canonical bytes of the record |
| AuditChain.CanonicalLayout | crates/tpt-pantheon-spine-audit-log/src/lib.rs:194-215 | where each field stands in the hashed bytes, numbers least significant byte first |
| AuditChain.AppendMeta | crates/tpt-pantheon-spine-audit-log/src/lib.rs:203-212 | appends the metadata in key order |
| AuditChain.VerifyChain | crates/tpt-pantheon-spine-audit-log/src/lib.rs:220-246 | the head of an accepted log, or its first defect |
| AuditChain.VerifyIff | crates/tpt-pantheon-spine-audit-log/src/lib.rs:220-246 | a log is accepted if and only if every record stores a hash, names the one before it and hashes to its own; otherwise the error names the first that does not |
| AuditChain.HashChainSink.Append | crates/tpt-pantheon-spine-audit-log/src/lib.rs:281-296 | an event without action is refused, any other is linked to the head and appended |
| AuditChain.LinkedVerifies | crates/tpt-pantheon-spine-audit-log/src/lib.rs:220-296 | a freshly linked record verifies against its head |
| AuditChain.AppendedVerifies | crates/tpt-pantheon-spine-audit-log/src/lib.rs:220-296 | every log built by sequential appends is accepted |
| AuditChain.AppendedKeepsRecords | crates/tpt-pantheon-spine-audit-log/src/lib.rs:281-296 | appending keeps every accepted record, in order, as it was |
| AuditChain.SameHeadSameHistory | crates/tpt-pantheon-spine-audit-log/src/lib.rs:194-246 | two accepted logs of equal length and head agree everywhere on previous hash and canonical record bytes |
| AuditChain.FieldsBoundIff | crates/tpt-pantheon-spine-audit-log/src/lib.rs:194-215 | with equal canonical bytes the fixed fields are equal if and only if their lengths agree |
| AuditChain.RecordBoundIff | crates/tpt-pantheon-spine-audit-log/src/lib.rs:194-215 | with equal canonical bytes the records, metadata included, are equal if and only if the lengths of the fields and of the metadata keys and values agree |
| AuditChain.MetaBytesBind | crates/tpt-pantheon-spine-audit-log/src/lib.rs:203-212 | metadata bytes with known key and value lengths have one reading |
| AuditChain.SameHeadSameRecordIff | crates/tpt-pantheon-spine-audit-log/src/lib.rs:194-246 | two accepted logs of equal length and head hold the same record at a position if and only if the two records there have the same shape |
| AuditChain.BoundaryShift | crates/tpt-pantheon-spine-audit-log/src/lib.rs:194-215 | two different records with the same hash: a byte moved from actor to action |
| AuditChain.MetadataShift | crates/tpt-pantheon-spine-audit-log/src/lib.rs:203-212 | two accepted one-record logs with the same head and different metadata: a byte moved from a value to its key |

## Left out

- HTTP parsing, cookies, JSON bodies, SQL text, logging, WebAuthn, SAML, webhooks, DNS: plumbing around the modelled decisions.
- AES, X25519, Ed25519, SHA-256, xxh3, AEAD, base64 and JSON internals: parameters with stated laws. JSON values are abstract; the laws say which values survive encoding, and encoding never fails.
- RateLimiter: tokens and time are reals, so floating-point rounding is not captured.
- DidComm: a failing random source is not modelled; the drawn keys and nonces are parameters.
- Pool: liveness is not claimed, since a failed dial frees its slot without waking a waiter (crates/keystone/sdk-go/pool.go:151-156); the context watcher is the flag of one pass.
- Tokens: each handler is one atomic step and store calls succeed; two requests racing between read and write of one row are not modelled. The client-credentials grant and logout are not part of the model.
- PgSession: contexts and deadlines are not modelled beyond the broken flag; what the client writes to the server is the flag of a successful flush. `SimpleQuery`, which returns after an error without draining (crates/keystone/sdk-go/conn.go:286-287), and the replication and COPY sub-protocols are not part of the model.
- PgWire.DecodeBody: a body too short for its own counts is a failure in the model, where the Go client may read stale bytes of its reused buffer or panic; the server never writes such a body. The lossy UTF-8 conversion of the Rust client is a parameter.
- SdJwt: claim values are opaque to the model except strings, numbers and lists; resolution of the issuer's key and extraction of the holder's key are parameters.
- AuditChain.HashChainSink.Append: stated for sequential calls; head lookup and append take separate locks (crates/tpt-pantheon-spine-audit-log/src/lib.rs:283-294), so concurrent appends can fork the chain.
- Csv: typed values are already rendered as text; reading CSV into database types is not part of the model.
- Multicodec varints (services/identity/pkg/did/web.go:245-255, services/identity/pkg/did/key.go:107-118): an easy round trip.
- The chunked HTTP decoder, account linking, logout, type-mapping tables, Kubernetes builders, metrics, rendering, FFI and front ends: lookup tables, wrappers or code without a modelled claim.
