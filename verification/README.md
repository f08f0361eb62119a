# OwneX verification project

A Dafny model of the parts of the OwneX repository where a mistake would be silent, and proofs of
what those parts promise. `dafny verify dfyconfig.toml` checks everything.

## What is modelled

| files | part of the system |
|---|---|
| `Texts`, `TextFacts`, `Utf8`, `Utf8Text`, `Base64`, `Base64Text` | JavaScript text as sequences of 16-bit code units, the UTF-8 codec of `Buffer`, base64 (section 4 of RFC 4648) |
| `Json`, `JsonText`, `JsonDecoding`, `Anchors` | canonical JSON (string escaping as in section 7 of RFC 8259), its text spelled out, an independent decoder, and the four record anchors |
| `Credentials`, `CredentialText`, `Pii` | HTTP Basic (section 2 of RFC 7617), stored client secrets, encrypted columns and the re-hashing of stored records |
| `Callbacks`, `CallbackFacts`, `CallbackText`, `CallbackGrammar` | the callback allow-list over a concrete grammar of http(s) URLs |
| `CodeStore` | both stores of authorization codes, and every history of inserts and consumes |
| `Protocol`, `ProtocolClient`, `ProtocolTrace`, `ProtocolFacts`, `ProtocolCodes`, `ProtocolRuns` | the authorization code flow (section 4.1 of RFC 6749) as a transition system with many requests in flight |
| `Portal` | the employee portal's session under logins and genuine or forged callbacks (section 10.12 of RFC 6749) |
| `Siwe`, `SignIn` | the sign-in message of EIP-4361, and the nonce that is read, checked and then used in separate steps |
| `Indexer`, `IndexerFacts`, `IndexerRebuild`, `IndexerRuns`, `IndexerReset`, `IndexerResume`, `Audit` | the event cache under syncs and rebuilds stopped after any write, chain replacement, resets stopped and resumed, and paging over the cache |
| `Binding`, `BindingFacts`, `BindingRoute`, `BindingLoss` | confirm requests that read, release and bind asset rows between each other's statements |
| `Identicon` | 32-bit hashing and drawing arithmetic, and the grid |
| `Seed`, `SeedFacts`, `SeedEntries` | the resumable seeding script |

Routines that change state in place are classes or methods over arrays whose contracts equate the new
state with a specification function (`MemoryCodeStore`, `SqlCodeStore`, `PortalSession`, `NonceTable`,
`AssetTable`, `AuditIndexer`, `SeedScript`, `XorShift32`, `Fnv1a`, `TopUp`, `Rectangles`). Where requests interleave,
the same specification functions are the steps of a transition system on values: a run is any sequence
of steps, a theorem is about every run, and clocks, edits by others, the chain and failing reads are
steps of the same system. A database statement is one atomic step.

Assumptions: keccak256 does not collide (anchors are compared as the bytes that are hashed), AES-GCM
opens what it sealed, generated codes, nonces and states are fresh, a token's on-chain hash is fixed, and
the unique index of `supabase/schema.sql:107-109` is in place. scrypt, AES-GCM, `getAddress`,
`verifyMessage`, date parsing and `toLowerCase` outside ASCII are function parameters, so every theorem
holds for any such functions.

## Findings

Each of these is a lemma about the code as it is.

* **A domain can break the sign-in message.** The parser takes the first line that starts with a label, so
  what matters is the whole first line, not the domain: "URI:" starts with no label, but its line does
  (`Siwe.ColonDomainFails`). `Siwe.RoundTripExactly` gives the exact condition.
* **A reset noticed by height indexes from block 0.** The rebuilt cache then starts below the configured
  start block (`IndexerReset.HeightResetOvershoots`; exact condition in
  `IndexerReset.RebuiltFromLowerBound`).
* **A purge stopped between its two deletes loses rows for good.** The height survives the rows: a whole
  rebuild leaves a gap exactly when it is stopped between the two deletes of a contract that had something
  to lose (`IndexerRebuild.StoppedRebuildExactly`), and no later default sync returns to them
  (`IndexerRuns.LostForever`). The same stop in a reset that a default sync makes by itself hides the new
  chain's logs below the old height (`IndexerResume.StoppedResetHidesALog`; exact condition in
  `IndexerResume.StoppedResetExactly`).
* **Two deployments on one database can lose a good binding.** A release is decided from a row read
  earlier and does not look at the row's stamp again (`BindingLoss.StaleReleaseRace`). It can happen exactly
  when the table starts with a bound row that is unstamped, or whose stamped deployment does not hold the
  row's hash for its token (`BindingLoss.LossExactly`); from any other table every success lasts, whatever
  deployments are served (`BindingLoss.HeldSuccessLasts`). With one deployment it never happens
  (`BindingFacts.AgreedNeverReleased`).
* **Lone surrogates do not survive UTF-8.** Credentials and encrypted fields that contain one do not come
  back (`Credentials.BasicRoundTrip`, `Pii.ProfileRehash`, `Pii.DraftRehash`), besides the empty string
  that `encryptPII` stores as null.
* **All trailing slashes go.** A comment speaks of a single trailing slash; the code, and so
  `Callbacks.StripSlashes`, drops every one. Userinfo is not part of the canonical form either.
* **A sign-in's expiry is checked before the update, not with it.** A challenge that passes its checks in
  time signs in however late the update comes (`SignIn.LateSignIn`). What the update does look at is exact:
  in every run a checked request signs in, in time or not, exactly when its nonce is neither used nor purged
  (`SignIn.LateUpdateExactly`).
* **A block that lies across a page end is cut off.** The cursor is a block number and the next page starts
  below it (`Audit.StraddlingBlockLosesARow`; exact condition in `Audit.CompleteExactly`).

## Model

| member | source | states |
|---|---|---|
| `JsonDecoding.DecodePrinted` | apps/platform/lib/hash.ts:25-34 | an independent decoder reads every printed value back to its meaning: unique decodability at any nesting |
| `JsonDecoding.CanonicalInjective` | apps/platform/lib/hash.ts:25-34 | two values print alike exactly when they agree up to key order and undefined fields |
| `JsonDecoding.PrintByMeaning` | apps/platform/lib/hash.ts:29-33 | values of one meaning print alike, however their keys were ordered |
| `JsonDecoding.CanonicalWellFormed` | apps/platform/lib/hash.ts:36-38 | the printed text never holds a lone surrogate, so hashing its bytes loses nothing |
| `JsonText.PrintedKeyOrder` | apps/platform/lib/hash.ts:29-33 | a scanner that only counts brackets and quotes reads off the printed text of any object its keys, in strictly ascending order of their first differing code unit |
| `JsonText.QuotePieces` | apps/platform/lib/hash.ts:25-34 | a string is printed as one piece for each unit, or each surrogate pair, between two quotes: short escapes, four lowercase hex digits for other controls and lone surrogates, everything else as it is |
| `JsonText.IntegerWritten` | apps/platform/lib/hash.ts:25-34 | an integer is printed as its decimal digits without leading zero, after a minus sign if negative |
| `Anchors.DomainSeparation` | apps/platform/lib/hash.ts:18-21 | records of different kinds never hash the same text |
| `Anchors.AnchorsFaithful` | apps/platform/lib/hash.ts:36-106 | pre-images are equal exactly for records of one kind that agree after trimming, lowercasing the email and reading missing as null |
| `Anchors.AnchorBytesFaithful` | apps/platform/lib/hash.ts:36-38 | the same for the bytes keccak256 is given |
| `Anchors.AnchorText` | apps/platform/lib/hash.ts:36-106 | the hashed text of each record is its literal label followed by a text that decodes to the object with the named keys and normalised values |
| `Utf8.EncodeInjective` | apps/platform/lib/hash.ts:36-38 | UTF-8 is injective on text without lone surrogates |
| `Utf8.DecodeEncode` | apps/platform/lib/crypto.ts:27-47 | decoding encoded text gives it back with lone surrogates replaced |
| `Utf8Text.DecodeExactly` | apps/platform/lib/crypto.ts:47 | any bytes are read as the Unicode standard recommends: a scalar value's form as that value, otherwise the longest beginning of a form, or one byte that begins none, as U+FFFD |
| `Utf8Text.EncodeExactly` | apps/platform/lib/hash.ts:36-38 | the bytes of each scalar value |
| `Base64.RoundTrip` | apps/platform/lib/crypto.ts:30-47 | both alphabets read back the bytes they printed |
| `Base64Text.PrintMore` | apps/platform/lib/crypto.ts:30-32 | three bytes print as the four letters, of either alphabet, of their 24-bit number, and the rest after them |
| `Base64Text.PrintTwo` | apps/platform/lib/crypto.ts:30-32 | two bytes left over print as three letters, padded with one equals sign except in the URL form |
| `Base64Text.PrintOne` | apps/platform/lib/crypto.ts:30-32 | one byte left over prints as two letters and two equals signs |
| `TextFacts.TrimExactly` | apps/platform/lib/callback-allowlist.ts:101 | trimming takes the space at both ends of a text and nothing else |
| `TextFacts.SpaceExactly` | apps/platform/lib/callback-allowlist.ts:101 | the 25 units that count as space |
| `TextFacts.LowerExactly` | apps/platform/lib/authorize.ts:88 | lowercasing changes the 26 capital letters alone |
| `Base64Text.DigitExactly` | apps/platform/lib/crypto.ts:45-46 | a unit is read as its place in either alphabet, and no other unit is read |
| `Credentials.BasicRoundTrip` | apps/platform/lib/partner-credentials.ts:14-36 | reading the header gives the credential back exactly when the id is non-empty without colon, the secret non-empty, and neither holds a lone surrogate |
| `Credentials.HeaderDecodes` | apps/employee-portal/lib/config.ts:109-112 | what the portal's header decodes to, for any credential |
| `CredentialText.HeaderExactly` | apps/platform/lib/partner-credentials.ts:14-36 | for every header text: it yields a credential exactly when it is the word Basic in any case, space and a base64 token, and the decoded text is that id, a colon and that secret |
| `CredentialText.HeaderWritten` | apps/employee-portal/lib/config.ts:109-112 | the text of the header the portal sends |
| `Credentials.StoredSecretVerifies` | apps/platform/lib/client-credentials.ts:57-116 | a stored secret accepts exactly the texts that derive the same key under its salt |
| `Credentials.OwnSecretVerifies` | apps/platform/lib/client-credentials.ts:57-116 | in particular the secret it was made from |
| `CredentialText.VerifiesExactly` | apps/platform/lib/client-credentials.ts:86-116 | a secret is accepted exactly against a stored text of six fields whose parameters, from 1024 rounds up, derive the key of its last field |
| `CredentialText.StoredWritten` | apps/platform/lib/client-credentials.ts:57-79 | the stored text, field by field, for every secret of at least 16 units |
| `Pii.DecryptEncrypted` | apps/platform/lib/crypto.ts:22-51 | decryption undoes encryption up to lone surrogates; an empty text is stored as nothing |
| `Pii.ProfileRehash` | apps/platform/app/api/profile/route.ts:61-83 | re-hashing a stored profile reproduces its anchor exactly when email and phone were each absent, or non-empty without lone surrogates |
| `Pii.DraftRehash` | apps/platform/app/api/assets/route.ts:173-197 | the same for the serial number and invoice of an asset draft |
| `CallbackFacts.Reparse` | apps/platform/lib/callback-allowlist.ts:98-119 | a canonical URL parses back to its parts |
| `CallbackFacts.CanonicalIdempotent` | apps/platform/lib/callback-allowlist.ts:98-119 | canonicalising twice is canonicalising once |
| `CallbackFacts.CanonicalExactly` | apps/platform/lib/callback-allowlist.ts:98-119 | two URLs canonicalise alike exactly when scheme, host, port and path up to trailing slashes agree |
| `CallbackGrammar.ParsesExactly` | apps/platform/lib/callback-allowlist.ts:98-119 | a text is read as a URL exactly when it is written in the grammar (scheme and host in any case; a user, port, path without dot segments, query and fragment of literal code units; four octets where a host ends in a number), and then as those parts, the default port dropped |
| `CallbackText.CanonicalWritten` | apps/platform/lib/callback-allowlist.ts:98-119 | the canonical form of such a text is scheme, host, port unless default, and path without trailing slashes |
| `CallbackFacts.AcceptedExactly` | apps/platform/lib/callback-allowlist.ts:148-184 | accepted exactly when the application exists and is live, the URL is at most 2048 units and parses, is https to no loopback host or goes to a loopback host in Development, and a listed entry has its canonical form, which is what is returned |
| `CallbackFacts.RefusedExactly` | apps/platform/lib/callback-allowlist.ts:148-184 | each reason of a refusal is given exactly when it is the first that holds |
| `CallbackFacts.TransportExactly` | apps/platform/lib/callback-allowlist.ts:130-142 | the transport check passes exactly https to a host that is not loopback, or localhost, [::1] or 127.d.d.d in Development |
| `Callbacks.ScanCallbacks` | apps/platform/lib/callback-allowlist.ts:148-184 | the loop over the registered list answers as specified, first match first |
| `CallbackFacts.RegisteredIsAccepted` | apps/platform/lib/callback-allowlist.ts:193-226 | what may be registered in a mode is accepted in that mode once listed |
| `CallbackFacts.RegistrableExactly` | apps/platform/lib/callback-allowlist.ts:193-226 | a URL may be registered exactly when it is short, parses, obeys the transport rule and carries no query or fragment |
| `CallbackFacts.RedirectIsPinned` | apps/platform/lib/callback-allowlist.ts:171-181 | the redirect goes to a listed entry that is https to no loopback host, or a loopback host in Development |
| `CallbackFacts.SameEntry` | apps/platform/lib/callback-allowlist.ts:171-181 | two accepted URLs resolve to one entry exactly when they canonicalise alike |
| `CallbackFacts.RedeemableAcross` | apps/platform/app/api/authorize/exchange/route.ts:79-92 | a code approved under one redirect is redeemable under another accepted one exactly when the two canonicalise alike |
| `CodeStore.MemoryCodeStore.Insert` | apps/platform/lib/authorize.ts:86-89 | a duplicate code is refused; otherwise the row is added with the wallet lowercased |
| `CodeStore.MemoryCodeStore.Consume` | apps/platform/lib/authorize.ts:90-106 | check then mark: the new rows and the payout are those of the specification |
| `CodeStore.SqlCodeStore.Insert` | apps/platform/lib/authorize-store.ts:20-31 | an insert keeps the primary key |
| `CodeStore.SqlCodeStore.Consume` | apps/platform/lib/authorize-store.ts:33-58 | the conditional update of every matching row, and the payout of the one it matched |
| `CodeStore.StepsAgree` | apps/platform/lib/authorize.ts:79-108 | on the same rows both stores answer alike and keep the same rows |
| `CodeStore.StoresAgree` | apps/platform/lib/authorize-store.ts:18-60 | over every history the two stores give the same answers |
| `CodeStore.RunExists` | apps/platform/lib/authorize-store.ts:18-60 | every history is one the database can answer |
| `CodeStore.RowOrigin` | apps/platform/lib/authorize.ts:86-89 | a row is exactly the accepted insert that wrote it |
| `CodeStore.RowHistory` | apps/platform/lib/authorize.ts:98-99 | a row is marked used exactly when a consume of its code was paid |
| `CodeStore.InsertedExactly` | apps/platform/lib/authorize.ts:86-89 | an insert is accepted exactly when no earlier one had its code |
| `CodeStore.PaidExactly` | apps/platform/lib/authorize.ts:114-139 | a consume is paid exactly when its code has at least 32 units, the first insert of that code was for its client and redirect and has not expired, and no earlier consume was paid; it is paid what that insert granted, the wallet in lowercase |
| `CodeStore.FreshCodePaid` | apps/platform/lib/authorize.ts:114-139 | a code of 43 units presented to its client and redirect within two minutes of its insert is paid |
| `CodeStore.PaidOnce` | apps/platform/lib/authorize.ts:90-106 | each code pays out at most once |
| `ProtocolFacts.Invariant` | apps/platform/app/api/authorize/exchange/route.ts:58-144 | in every interleaving, every code, approval, request in flight and claim is justified by what was read when |
| `ProtocolFacts.ClaimsComeFromApproval` | apps/platform/app/api/authorize/approve/route.ts:37-107 | claims for a wallet and client come from one earlier request that submitted a form of admissible lengths, found the client's row unrevoked and a listed callback its redirect spells, met a session of that wallet up to case at its own session step, found access allowed by its own later reads for the client's organization, and stored the code; the claiming request itself found the row unrevoked again, presented the code and a secret that derives the stored key, consumed the code within two minutes, and answered |
| `ProtocolTrace.RunTraced` | apps/platform/app/api/authorize/approve/route.ts:37-107 | in every run, whatever a request, a stored code or a claim remembers was put there by that request's own earlier steps |
| `ProtocolFacts.ClaimsAreLive` | apps/platform/app/api/authorize/exchange/route.ts:109-144 | after the code was consumed every part of the decision was read again from the chain as it then was and allows access; the claims repeat those readings and the time of the answer; before, the client's row was there and unrevoked, its secret right and its redirect listed |
| `ProtocolFacts.ClaimsOnce` | apps/platform/app/api/authorize/exchange/route.ts:82-107 | a code is turned into claims at most once |
| `ProtocolCodes.CodeExactly` | supabase/schema.sql:291-303 | in every run an approved code is stored, for its client, organization, wallet and callback, until a purge more than an hour past its expiry, and unused exactly until a request consumes it |
| `ProtocolCodes.TimeGoesOn` | apps/platform/lib/authorize-store.ts:33-58 | no step of a run takes the clock back |
| `ProtocolFacts.RevokedGetsNothing` | apps/platform/app/api/authorize/exchange/route.ts:114-133 | once an identity is revoked for good, no code consumed from then on gives claims |
| `ProtocolFacts.FailedNeverClaims` | apps/platform/lib/access-decision.ts:155-193 | a request that meets a failing read or write never answers with claims, whatever happens afterwards |
| `ProtocolFacts.AdvanceJustified` | apps/platform/lib/applications.ts:276-301 | each reading step of a request leaves it knowing only what the tables and the chain held at that step |
| `ProtocolClient.AcceptedAt` | apps/platform/lib/applications.ts:276-301 | the redirect check against the tables answers with the first listed callback that the redirect spells, and accepts exactly then |
| `ProtocolClient.DenialExactly` | apps/platform/lib/access-decision.ts:58-78 | the reason of a denial is true of the readings and no reason before it is; access is allowed exactly when none is |
| `ProtocolFacts.ConsumePays` | apps/platform/app/api/authorize/exchange/route.ts:82-112 | a consumed code is unspent, was approved earlier for the same client and callback, and has not expired |
| `ProtocolFacts.HistoryIsRun` | apps/platform/lib/live-access.ts:43-86 | the recorded history is the sequence of worlds the run went through |
| `ProtocolRuns.HonestApproval` | apps/platform/app/api/authorize/approve/route.ts:59-102 | from any state, consent by an allowed wallet at a client whose row is unrevoked and lists the redirect stores the code |
| `ProtocolRuns.HonestExchange` | apps/platform/app/api/authorize/exchange/route.ts:58-144 | from any state, a good code presented by its client is answered with exactly the claims the chain holds |
| `ProtocolRuns.HonestSignIn` | apps/platform/app/api/authorize/exchange/route.ts:58-144 | the two together, under any two redirects accepted for one callback |
| `Portal.PortalSession.LoginRoute` | apps/employee-portal/app/api/login/route.ts:40-50 | a login stores its state for five minutes and clears the wallet |
| `Portal.PortalSession.CallbackRoute` | apps/employee-portal/app/api/callback/route.ts:36-130 | the state is cleared whatever happens; the wallet is set exactly when the state and the claims are accepted |
| `Portal.PendingLogin` | apps/employee-portal/app/api/login/route.ts:40-50 | until a callback follows the latest login, the session holds exactly that login's state, for five minutes, and no wallet |
| `Portal.StatesMatchExactly` | apps/employee-portal/app/api/callback/route.ts:29-34 | comparing bytes is comparing texts, for text without lone surrogates |
| `Portal.WalletExactly` | apps/employee-portal/app/api/callback/route.ts:46-127 | over every run the session holds a wallet exactly when the first callback after the latest login carried its unexpired state and a code without error, and its exchange returned a 0x address of 40 hex digits, not inactive, and no other organization than the portal's; the session then holds that wallet, the portal's organization and the time of verification |
| `Portal.AcceptedState` | apps/employee-portal/app/api/callback/route.ts:46-58 | an accepted state is the one drawn by the login just before |
| `Portal.StateOnce` | apps/employee-portal/app/api/callback/route.ts:50-54 | if drawn states differ, each is accepted at most once |
| `Portal.LoginClears` | apps/employee-portal/app/api/login/route.ts:45-49 | after every run a new login leaves no wallet |
| `Siwe.RoundTripExactly` | apps/platform/lib/siwe.ts:200-232 | for every set of fields, parsing the printed message gives them back exactly when they are non-empty, trimmed and single-line and no header line gives a label another value |
| `Siwe.MessageText` | apps/platform/lib/siwe.ts:42-56 | the printed message is eleven lines, label by label |
| `Siwe.PlainHeadersRoundTrip` | apps/platform/lib/siwe.ts:42-56 | it does whenever the domain's line, the address and the statement start with no label |
| `Siwe.ColonDomainFails` | apps/platform/lib/siwe.ts:207-212 | looking at the domain alone is not enough: "URI:" breaks the round trip |
| `Siwe.ParsedShape` | apps/platform/lib/siwe.ts:200-232 | whatever is parsed has trimmed, non-empty, single-line fields |
| `SignIn.NonceTable.IssueChallenge` | apps/platform/lib/siwe.ts:65-96 | the row records the lowercased wallet, the server's domain and a five-minute expiry; the message is the server's |
| `SignIn.NonceTable.VerifyChallenge` | apps/platform/lib/siwe.ts:109-197 | answer and table are those of the specification |
| `SignIn.Invariant` | apps/platform/lib/siwe.ts:109-197 | what every interleaving keeps about rows, requests and sign-ins |
| `SignIn.NonceOnce` | apps/platform/lib/siwe.ts:182-194 | in every interleaving each nonce signs in at most once |
| `SignIn.SignInOrigin` | apps/platform/lib/siwe.ts:135-196 | a sign-in traces back to one issued challenge: same wallet up to case, same domain, checked before its expiry and before the update, over the server's own message, signed by that wallet |
| `SignIn.LateUpdateExactly` | apps/platform/lib/siwe.ts:182-194 | in every run, a checked request updated at any later time signs in exactly when its nonce is neither used nor purged, so it signs in at or after the expiry exactly when the update comes then and finds it so |
| `SignIn.UseOrigin` | apps/platform/lib/siwe.ts:182-196 | each sign-in was added by one update, at the time it records, of a request that had passed its checks with that ticket and whose nonce was not spent |
| `SignIn.LateSignIn` | apps/platform/lib/siwe.ts:182-194 | for any delay, a run in which a challenge signs in that much later than it was issued |
| `SignIn.GoneExactly` | supabase/schema.sql:308-320 | in every run the row of an issued nonce is gone exactly when a purge came more than an hour after its expiry |
| `SignIn.AcceptedMessage` | apps/platform/lib/siwe.ts:153-168 | a message is accepted, for a wallet, exactly when it is the server's text for a nonce that was issued to that wallet, is unused and has not expired, with a time that has not passed, and the signature recovers that wallet |
| `SignIn.UsedRefused` | apps/platform/lib/siwe.ts:144-148 | a used or unknown nonce is refused in any message |
| `SignIn.IssuedAccepted` | apps/platform/lib/siwe.ts:65-96 | an issued challenge, signed by its wallet and returned in time, signs in |
| `SignIn.SerialRequest` | apps/platform/lib/siwe.ts:109-197 | one request alone takes the steps of the interleaved system |
| `Indexer.AuditIndexer.SyncEvents` | apps/platform/lib/indexer.ts:190-288 | stopped after any number of writes, the tables are exactly what the specification says |
| `Indexer.AuditIndexer.SyncContract` | apps/platform/lib/indexer.ts:208-285 | one contract's turn: detection, purges, chunks and height, in order |
| `Indexer.AuditIndexer.PurgeContractCache` | apps/platform/lib/indexer.ts:184-188 | two deletes, either of which may be the last write made |
| `Indexer.AuditIndexer.IndexChunks` | apps/platform/lib/indexer.ts:239-270 | the chunk loop writes the rows of each non-empty range |
| `Indexer.AuditIndexer.CollectRows` | apps/platform/lib/indexer.ts:243-261 | the rows are the logs of the query that carry a tracked event, in order |
| `Indexer.AddRowsKeeps` | apps/platform/lib/indexer.ts:263-267 | an upsert that ignores duplicates keeps every row and adds the missing ones |
| `Indexer.RowsInExactly` | apps/platform/lib/indexer.ts:239-261 | a query's rows are exactly the contract's logs of the range that carry one of the 21 named events |
| `IndexerFacts.CachedOnce` | apps/platform/lib/indexer.ts:263-267 | a covered log is cached under its own key and no other |
| `IndexerFacts.NoReset` | apps/platform/lib/indexer.ts:167-182 | a cache whose rows are on the chain is never taken for a dead one |
| `IndexerFacts.ResetSeenExactly` | apps/platform/lib/indexer.ts:167-182 | a reset is noticed only if a newest cached row is gone from the chain, and whenever every newest row is; older rows are never looked at |
| `IndexerRuns.NeverAGap` | apps/platform/lib/indexer.ts:190-288 | over every run of syncs on a growing chain, each stopped after any write, every cached row is a log with one of the 21 named events and none is missing up to the recorded height; explicit starts in (lower bound, last block + 1] included, and rebuilds unless stopped between the two deletes of a contract that has something to lose |
| `IndexerRuns.CompletedSync` | apps/platform/lib/indexer.ts:202-281 | a completed sync leaves every tracked log from the lower bound on in the cache |
| `IndexerRuns.ConfiguredCache` | apps/platform/lib/indexer.ts:142-150 | after a completed sync the cache mirrors the chain from the configured start block on, else on Sepolia from the recorded one, else from block 0, with either chunk size |
| `IndexerFacts.ExplicitStartExactly` | apps/platform/lib/indexer.ts:228 | a completed sync from an explicit block leaves no gap exactly when everything below it was cached before |
| `IndexerReset.ReplacedChain` | apps/platform/lib/indexer.ts:167-234 | after replacement by a chain that shares no transaction, one completed sync leaves each contract's rows equal to the new chain's logs of the 21 named events from its start on |
| `IndexerReset.ReplacedStart` | apps/platform/lib/indexer.ts:211-234 | where that start is, by cached rows, recorded height and tip |
| `IndexerReset.RebuiltFromLowerBound` | apps/platform/lib/indexer.ts:211-234 | it amounts to the start block exactly when no tracked log lies between the two |
| `IndexerReset.HeightResetOvershoots` | apps/platform/lib/indexer.ts:229-234 | for any tracked log above block 0 and below the lower bound, a table and chain on which it does not |
| `IndexerRebuild.StoppedRebuildExactly` | apps/platform/lib/indexer.ts:184-231 | a whole explicit rebuild, stopped after n writes, leaves a gap exactly when write n is the second delete of a contract whose recorded height promised some log |
| `IndexerRuns.LostForever` | apps/platform/lib/indexer.ts:222-239 | a log that the recorded height has passed without being cached is never indexed by default syncs on the growing chain |
| `IndexerResume.StoppedResetExactly` | apps/platform/lib/indexer.ts:184-239 | after replacement, a default sync stopped after n writes and then one run to its end: the contract misses a log from the lower bound on exactly when its old height has one below it and either it had no rows or the stop fell between its two deletes |
| `IndexerResume.StoppedResetHidesALog` | apps/platform/lib/indexer.ts:184-228 | a concrete cache and chain on which the stop after one delete hides a log |
| `IndexerResume.TurnCompletes` | apps/platform/lib/indexer.ts:208-281 | from whatever a stop can leave of a contract, dead rows or live ones, one whole turn covers it from the lower bound exactly when nothing below the recorded height is missing or the turn starts over |
| `IndexerResume.LostInReset` | apps/platform/lib/indexer.ts:184-239 | and then that log is missing after every further run of default syncs |
| `Audit.NextRemainder` | apps/platform/app/api/audit/route.ts:55-70 | the next cursor asks for a strictly smaller remainder, so following it ends |
| `Audit.YieldedDescending` | apps/platform/app/api/audit/route.ts:41-43 | the rows come in strictly descending order, none twice |
| `Audit.YieldedInRange` | apps/platform/app/api/audit/route.ts:55-62 | every row shown is a row of the cache in range |
| `Audit.MissedExactly` | apps/platform/app/api/audit/route.ts:55-70 | the rows missed are exactly those in the block of a page's last row that sort after it |
| `Audit.CutOffExactly` | apps/platform/app/api/audit/route.ts:55-70 | from any cursor some remaining row is cut off exactly when a block of the remaining rows lies across a multiple of the page size |
| `Audit.CompleteExactly` | apps/platform/app/api/audit/route.ts:38-70 | paging shows the whole cache exactly when no block of its rows lies across a multiple of the page size |
| `Audit.StraddlingBlockLosesARow` | apps/platform/app/api/audit/route.ts:55-70 | two logs of one block and a page of one: the second is never shown |
| `Binding.AssetTable.ReleaseContradictedClaims` | apps/platform/app/api/assets/[assetId]/confirm/route.ts:123-178 | the loop releases, skips or aborts claim by claim as specified |
| `Binding.AssetTable.BindToken` | apps/platform/app/api/assets/[assetId]/confirm/route.ts:187-234 | binds and stamps a draft unless the index or another bind forbids it |
| `Binding.AssetTable.ConfirmRoute` | apps/platform/app/api/assets/[assetId]/confirm/route.ts:30-82 | the whole route on one table |
| `BindingFacts.ConfirmExactly` | apps/platform/app/api/assets/[assetId]/confirm/route.ts:30-82 | alone, a confirm succeeds exactly when the row is a draft, the chain holds its hash and organization, and no rival record agrees with the chain |
| `BindingFacts.ReleaseAllExactly` | apps/platform/app/api/assets/[assetId]/confirm/route.ts:136-177 | releasing fails exactly on a conflict, touches only contradicted claims, and clears all of them |
| `BindingRoute.RouteExactly` | apps/platform/app/api/assets/[assetId]/confirm/route.ts:30-82 | the whole route on a table: success exactly for a draft whose hash and organization the chain holds and no rival's; then its row is bound, stamped and named after the mint, and every unstamped or same-stamped rival released; else at most contradicted rivals are released |
| `BindingRoute.ListsExactly` | apps/platform/app/api/assets/[assetId]/confirm/route.ts:98-122 | the claims are the other rows of the token, each once |
| `BindingRoute.SerialRequest` | apps/platform/app/api/assets/[assetId]/confirm/route.ts:30-82 | from any state of the interleaved system a request whose steps follow each other does exactly what the route does, and leaves every other request as it was |
| `BindingRoute.SuccessStep` | apps/platform/app/api/assets/[assetId]/confirm/route.ts:62-82 | an answer "verified" comes from a bind that answered and from nothing else |
| `BindingRoute.WorldStep` | apps/platform/app/api/assets/route.ts:196-212 | a draft appears under a new id, unstamped or with a lowercase stamp, and a minted token never changes |
| `BindingFacts.NoTokenTwice` | apps/platform/app/api/assets/[assetId]/confirm/route.ts:202-223 | in every interleaving no two rows hold one token of one deployment |
| `BindingFacts.BoundOnlyIfAgreed` | apps/platform/app/api/assets/[assetId]/confirm/route.ts:51-60 | a row is bound only to a token whose hash and organization on its deployment are the row's |
| `BindingFacts.ReleasedOnlyIfContradicted` | apps/platform/app/api/assets/[assetId]/confirm/route.ts:159-170 | a row loses a token only to a request whose deployment holds another hash for it |
| `BindingFacts.AgreedLostOnlyToOthers` | apps/platform/lib/asset-binding.ts:31-44 | a binding its chain agrees with can only be lost to another deployment's request |
| `BindingFacts.AgreedNeverReleased` | apps/platform/lib/asset-binding.ts:31-44 | with one deployment it is never lost |
| `BindingFacts.SuccessAtOnce` | apps/platform/app/api/assets/[assetId]/confirm/route.ts:62-81 | at the step that answers "verified" the row holds the token, the chain agrees, and no other row of the deployment and no unstamped row claims it, in every run of any deployments |
| `BindingFacts.SuccessExclusive` | apps/platform/app/api/assets/[assetId]/confirm/route.ts:62-81 | for good after a success, with any deployments: no unstamped row claims the token, and while the row still holds it no other row of its deployment does |
| `BindingFacts.OneDeploymentLosesNothing` | apps/platform/lib/asset-binding.ts:31-44 | no run of one deployment loses a binding the chain agrees with |
| `BindingFacts.SuccessLasts` | apps/platform/app/api/assets/[assetId]/confirm/route.ts:62-81 | in every run that loses no such binding a success lasts: its row holds the token alone and the chain agrees |
| `BindingLoss.StaleReleaseRace` | apps/platform/app/api/assets/[assetId]/confirm/route.ts:136-166 | the interleaving of two deployments that takes a good binding away |
| `BindingLoss.LossExactly` | apps/platform/app/api/assets/[assetId]/confirm/route.ts:136-170 | some run of any deployments takes away a binding the chain agrees with, exactly when the table has a bound row that is unstamped or whose deployment does not hold its hash for its token |
| `BindingLoss.HeldNeverReleased` | apps/platform/app/api/assets/[assetId]/confirm/route.ts:136-170 | from any other table no run of any deployments takes a token away from any row |
| `BindingLoss.HeldSuccessLasts` | apps/platform/app/api/assets/[assetId]/confirm/route.ts:62-81 | and so from such a table every success lasts |
| `Identicon.ShiftsMultiply` | apps/platform/components/ui/identicon.tsx:19-23 | the signed shift-and-add multiplies by 16777619 modulo 2^32, in exact doubles |
| `Identicon.SignedStep` | apps/platform/components/ui/identicon.tsx:19-23 | also for the unsigned word an exclusive or leaves |
| `Identicon.Fnv1a` | apps/platform/components/ui/identicon.tsx:16-26 | the loop computes FNV-1a over the code units of every text |
| `Identicon.HashExactly` | apps/platform/components/ui/identicon.tsx:16-26 | from 2166136261, each unit is xored in and the product with 16777619 taken modulo 2^32 |
| `Identicon.XorLeftOnWords` | apps/platform/components/ui/identicon.tsx:32-36 | `x ^= x << k` on numbers, signed or not, works the 32-bit pattern as a left shift and exclusive or do |
| `Identicon.XorRightOnWords` | apps/platform/components/ui/identicon.tsx:34 | the same for `x ^= x >>> k` |
| `Identicon.XorShift32.Next` | apps/platform/components/ui/identicon.tsx:31-38 | the signed number arithmetic of one draw yields the next word |
| `Identicon.DrawExactly` | apps/platform/components/ui/identicon.tsx:31-38 | one draw is x ^ x*2^13, then x ^ x div 2^17, then x ^ x*2^5 on 32-bit words |
| `Identicon.DrawBijective` | apps/platform/components/ui/identicon.tsx:29-39 | a draw is a bijection on 32-bit words, with the inverse given, and takes zero alone to zero |
| `Identicon.DrawNonZero` | apps/platform/components/ui/identicon.tsx:29-39 | from any seed the generator never reaches zero |
| `Identicon.TopUp` | apps/platform/components/ui/identicon.tsx:62-70 | topped up in place to at least five cells, first gaps first, nothing cleared |
| `Identicon.Rectangles` | apps/platform/components/ui/identicon.tsx:72-79 | every covered cell once, mirrored, and nothing else |
| `Identicon.Grid` | apps/platform/components/ui/identicon.tsx:58-79 | at least five rectangles, mirror symmetric, none twice, whatever was drawn |
| `Identicon.Mark` | apps/platform/components/ui/identicon.tsx:49-79 | a cell is drawn exactly when the draw at its place leaves less than 52 modulo 100; the mark of a text is drawn from its hash, topped up, and has those properties |
| `Seed.UniquePeople` | scripts/seed-demo.ts:118-126 | the filter over a growing set keeps what the specification keeps |
| `Seed.UniqueCovers` | scripts/seed-demo.ts:118-126 | exactly the wallets not seen before are kept |
| `Seed.UniqueDistinct` | scripts/seed-demo.ts:118-126 | no wallet is kept twice |
| `Seed.SeedScript.Run` | scripts/seed-demo.ts:248-348 | stopped after any number of transactions, the chain and the number of transactions sent are exactly what the specification says |
| `Seed.SeedScript.EnsureOrg` | scripts/seed-demo.ts:257-277 | the organization is found or created, and its number is the first match |
| `Seed.SeedScript.LookForToken` | scripts/seed-demo.ts:327-333 | a token is found exactly when one of the organization carries the hash |
| `SeedFacts.Resumes` | scripts/seed-demo.ts:248-348 | stopped after any transaction and run again later, the script makes the same of the chain as one run |
| `SeedFacts.Converges` | scripts/seed-demo.ts:248-348 | so it does after any number of interrupted runs, expiry times of temporary roles aside |
| `SeedFacts.FurtherRunIdle` | scripts/seed-demo.ts:248-348 | a finished run leaves every check satisfied; a run after it sends no transaction, however many it may, and changes nothing |
| `SeedFacts.OnlyAdds` | scripts/seed-demo.ts:248-348 | no run changes an identity, role, grant or token that was there |
| `SeedFacts.NeverMintedTwice` | scripts/seed-demo.ts:320-343 | however runs are stopped, no asset hash is minted again |
| `SeedFacts.NewMembersAsPlanned` | scripts/seed-demo.ts:279-299 | at whatever transaction the script is stopped, a new member is one of our organization, is not its creator, and has the role and term of the first membership planned for the address |
| `SeedEntries.OrgFound` | scripts/seed-demo.ts:257-277 | our organization is the first on the chain with our root admin, in any letter case, and our metadata; numbers start at 1 |
| `SeedEntries.NewIdentitiesAsPlanned` | scripts/seed-demo.ts:248-299 | at whatever transaction the script is stopped, a newly registered wallet has the hash of the first person planned for it |
| `SeedEntries.SetsUpAsPlanned` | scripts/seed-demo.ts:301-317 | however a run is stopped, it creates at most our own organization and only if there was none, registers only the planned application under the planned hash, and grants only that application |
| `SeedEntries.NewTokensAsPlanned` | scripts/seed-demo.ts:319-348 | a new token is that of a planned asset: its organization, its hash, its holder in lower case and its metadata address |
| `SeedFacts.PeopleReached` | scripts/seed-demo.ts:248-299 | a finished run has everybody registered and every member in, with the role that was there before or else the planned one |
| `SeedFacts.GrantsReached` | scripts/seed-demo.ts:301-317 | and the application granted to all four roles |
| `SeedFacts.TokensReached` | scripts/seed-demo.ts:319-343 | and one token per distinct asset hash, unless there were more before |

## Left out

- Callbacks.ParseUrl: full WHATWG parsing; dot segments, percent-encoding, IDNA, backslashes, tabs and newlines inside the text, IPv6 hosts other than [::1] and unusual IPv4 spellings are read as malformed.
- JsonDecoding.CanonicalInjective: numbers are integers printed in decimal (no exponents, fractions or negative zero); NaN and infinities print as null and are read as null; sparse arrays are not modelled.
- Credentials.StoredSecretVerifies: the cost parameters are read only as decimal digit strings, the form the printer writes; the maximum length check of the request schemas is in `Protocol`.
- Siwe.RoundTripExactly: a chain id that is not written in decimal digits makes the model's parser refuse, where the code returns a number `verifyChallenge` then refuses; the reasons of refusals are not distinguished.
- Pii.ProfileRehash: for emails without lone surrogates; the request schema admits only ASCII addresses (apps/platform/app/api/profile/route.ts:26).
- Portal.StateOnce: assumes that logins draw different states.
- Binding: rows are never deleted, and the repair script is not modelled.
- IndexerRuns.NeverAGap: syncs do not overlap, the chain is not replaced while a sync runs, and a write that fails without being noticed (the deletes and the height upsert do not look at their error) is not modelled.
- IndexerReset.RebuiltFromLowerBound: the chain model carries the set of its transaction hashes instead of receipts.
- Interleaved requests as objects: the transition systems are on values, so the sharing of one row object between in-memory requests is not captured.
- Each chain reader of the access decision is one atomic read, although some make several contract calls.
- Transactions of the seeding script always succeed; the contracts are used only through the effects the script checks for.
- `extract`, `readablePayload` and the counters of `SyncResult`: one-branch readings of event arguments.
- `buildCallbackRedirect`'s parameters, `explain…` texts, HTTP status codes and the hue of the identicon.
- `toRoles`, `readCallbacksForOrg`, `listApplicationsForOrg`, `validateCallbackList` and `replaceCallbacks` itself: list plumbing; its delete and insert are two edits of the callback table in `Protocol`.
- The duplicate `canonicalJson` of the seeding script: the same function as the platform's.
- SQL check constraints, row-level security, cookie sealing, timing of comparisons, and the fallback for databases without the deployment columns.
- The Solidity contracts, user interface, wallet discovery, deployment and health scripts.
