# Verified models of the secure messaging application

This project models the application's protocols and codecs in Dafny and proves what they keep
over every run and every input.

| file | what it models |
|---|---|
| `Common.dfy` | options and bytes |
| `RateLimiter.dfy` | the per-user sliding-window limit on on-chain records, under threads |
| `Hex.dfy` | validation, normalisation and decoding of content hashes |
| `DigestLog.dfy` | the contract's digest log and the verification page |
| `Recording.dfy` | the recording pipeline: send, background recorder, node, delete, step by step |
| `History.dfy` | the same runs by their events: submitted hashes, limiter calls, the log, progress |
| `GasBound.dfy` | limiter and pipeline together: accepted transactions per user |
| `Races.dfy` | refreshes and logouts that overlap: lookups, inserts and commits interleaved |
| `Tokens.dfy`, `AuthServer.dfy` | issue, verify, rotate, log out, deny list and purge; the handlers as a class |
| `Answers.dfy` | the token server's answers by what happened before: accounts, tokens handed out, used up, logged out |
| `Session.dfy`, `Browser.dfy` | the browser's session, mirror, refresh and retry, and browsers and server together |
| `MessageStore.dfy`, `MessageService.dfy` | messages, grants, inbox query, access; the handlers as a class |
| `Conversation.dfy` | the native client's conversation index |
| `Base64.dfy` | the browser's and Python's base64 codecs and the request validators |
| `SealOpen.dfy` | message sealing and private-key wrapping in both implementations |
| `Binding.dfy` | who can open a sealed message and a wrapped private key |
| `Secrecy.dfy` | a symbolic model of what the stored rows give away |

Protocols are functions on a state value, one step per event, and runs are sequences of events.
Where the source updates state in place, a class does the same statement by statement and each
method is proved equal to the step function; the properties are then lemmas about runs of that
function. The recording pipeline interleaves threads, transactions and the node at the level of
single statements, lock operations and RPC calls; overlapping refreshes and logouts are interleaved
at the level of single lookups, inserts and commits.

## What turned out not to hold

- **Message and audit row can disagree.** `store_blockchain_record` (`server/app/models.py:119-138`)
  runs UPDATE then INSERT, and the thread is started before the send's own transaction commits
  (`server/app/routes.py:64-77`). If the UPDATE runs before that commit and the INSERT after it,
  the audit row points at a live message whose `tx_hash` is NULL. `HalfWrittenReachable` gives the
  run; `StorePairedIff` shows that the pair is safe from then on exactly when the send is no longer
  uncommitted at the UPDATE.
- **Logging out with an expired access token does not log out.** The retry after the refresh
  repeats the old body (`client/web/js/app.js:335`, `client/web/js/app.js:377-380`), so the server
  answers 401 and the refresh token just issued stays usable for a week. `LogoutIff` gives the
  exact condition, `LateLogout` what is left behind.
- **A refresh token can be used twice by overlapping requests.** A deny-list row is visible to others
  only once its transaction commits, after the reply has been built (`server/app/db.py:40-47`), and
  an insert that then finds the row is not an error (`server/app/models.py:240-249`). So a request
  passes its lookup at any time up to that commit, the other request's insert included
  (`TokenRaces.OverlapAccepted`). Two requests with one token are both accepted exactly when neither
  looked it up after the other's commit (`BothAcceptedIff`); n accepted rotations leave n - 1 live
  tokens too many, and a logout accepted beside a rotation leaves its user signed in (`RaceGain`).
- **The limiter's hour is shorter under threads.** The clock is read before the lock, so with
  readings lagging by up to d the bound holds on windows shorter than an hour less d, and
  `BoundIsTight` shows that it fails on a window of exactly that length.
- **The two base64 decoders differ on the URL-safe alphabet**, which the validator accepts for
  ciphertexts and ephemeral keys: the browser maps it back, the Python mirror skips those characters
  and reads fewer bytes. On accepted strings they agree exactly when the string is in the standard
  alphabet (`PyAgreesIff`), as all encoder output is. So a sealed message one of whose fields is
  respelled in the URL-safe alphabet still opens in the browser, and the Python mirror never gives
  its text back (`OpensRespelledIff`).
- **The verification page does not look at who emitted an entry** (`blockchain/verification/js/verify.js:87-98`),
  so Verified alone does not put the digest into this contract's log: `ForgedReceipt` is a receipt
  of another contract that passes, `LoggedIff` the exact condition.
- **The label of the message key is a prefix of the key-protection label**
  (`docs/crypto_design.md` section 4 calls the labels independent). `LabelsSeparate` shows that
  contexts of three 32-byte keys keep them apart, and the one context that would not.
- **Private keys stay secret only while salts differ.** The stored password hash and the envelope
  use the same Argon2id parameters and output length; `KeysLeakIff` shows that a shared salt, and
  nothing else, lets the stored rows open an envelope.

## Model

| member | source | states |
|---|---|---|
| RateLimiter.Limiter.BlockchainRateOk | server/app/routes.py:19-27 | the call's verdict and the whole table after it, refused calls writing nothing |
| RateLimiter.VerdictIsWindowCount | server/app/routes.py:19-27 | serialised calls, clock not going back: accepted iff fewer than max of all the user's accepted calls lie in the last 3600 s, counted over the complete history although the list is pruned |
| RateLimiter.PrunedMatchesLog | server/app/routes.py:22-26 | seen from any time at or after the last reading, the pruned list equals the complete log of accepts |
| RateLimiter.UsersIndependent | server/app/routes.py:15-26 | a user's list and accepts are those that the user's calls alone would have produced |
| RateLimiter.WindowBound | server/app/routes.py:19-27 | readings lagging by at most d: any window shorter than 3600 - d holds at most max accepted calls of one user, in every run |
| RateLimiter.BoundIsTight | server/app/routes.py:19-27 | for every d in (0, 3600] and max of at least 2, a run with max + 1 accepted calls in a window of exactly 3600 - d |
| Hex.NormaliseFaithful | server/app/validators.py:193-200 | for every accepted hash: normalising is idempotent, keeps the 32 bytes, and printing those bytes gives the stored text |
| Hex.AcceptedIff | server/app/validators.py:160-200 | a content hash is accepted iff it writes 32 bytes in hex of either case, with or without 0x, and it is stored as the lower-case print of exactly those bytes |
| Hex.StoredEqualIff | server/app/validators.py:193-200 | two accepted hashes are stored alike iff they stand for the same bytes |
| Hex.PrintedDigest | client/web/js/app.js:213-215 | what the client prints for a 32-byte digest is accepted unchanged and decodes to that digest |
| Hex.FromToHex | server/app/blockchain.py:64 | decoding hex digits undoes printing them |
| DigestLog.MessageDigest.RecordDigest | blockchain/contracts/MessageDigest.sol:39-43 | the owner appends one record and the event carries its index; anybody else changes nothing |
| DigestLog.MessageDigest.GetRecord | blockchain/contracts/MessageDigest.sol:48-56 | the record at an index, or a revert out of bounds |
| DigestLog.MessageDigest.GetRecordCount | blockchain/contracts/MessageDigest.sol:58-60 | the length of the log |
| DigestLog.Verify | blockchain/verification/js/verify.js:60-117 | Error iff a field is empty, the hash after trimming, or the fetch throws; Verified iff not so, the receipt of the hash stripped of exactly its outer blanks exists and its first digest event, from whichever contract, carries the digest of the text |
| DigestLog.TrimIs | blockchain/verification/js/verify.js:62 | trimming cuts only blanks at the two ends and leaves none there |
| DigestLog.LoggedIff | blockchain/verification/js/verify.js:87-98 | for a possible receipt that passes: the digest is in the contract's log, whatever the log, iff the contract itself emitted an entry with it |
| DigestLog.ForgedReceipt | blockchain/verification/js/verify.js:87-98 | another contract's receipt passes for a digest that was never recorded |
| DigestLog.PrintedInjective | blockchain/verification/js/verify.js:104 | comparing printed digests compares the digests |
| Recording.StepKeeps | server/app/routes.py:30-35 | every step of every thread, transaction and the node keeps the invariant linking messages, audit rows, threads, lock and chain |
| Recording.MutualExclusion | server/app/blockchain.py:68-80 | at most one thread between taking and releasing the nonce lock, whatever is raised inside |
| Recording.NoncesConsecutive | server/app/blockchain.py:66-80 | in every reachable state accepted transactions carry consecutive nonces from the account's first, hence distinct ones |
| Recording.LockIsNeeded | server/app/blockchain.py:66-68 | for any two waiting threads in any reachable state, a run that the lock rules out and that, with no lock to wait for, ends with two accepted transactions of the same nonce |
| Recording.AuditMatchesChain | server/app/models.py:119-138 | every audit row names a successful transaction whose on-chain record has the row's digest; no two rows name the same transaction |
| Recording.PairedUnlessUnmatched | server/app/models.py:119-138 | a live message has a hash iff exactly one audit row points at it, with that hash, except exactly when its thread stored after an UPDATE that matched nothing |
| Recording.StorePairedIff | server/app/routes.py:64-77 | at a recorder's UPDATE: the pair agrees in every continuation iff the send is no longer uncommitted |
| Recording.HalfWrittenReachable | server/app/routes.py:64-77 | a concrete run from the empty database to a live message with an audit row and no transaction hash |
| Recording.RowsPointing | server/database/schema.sql:47-53 | the number of audit rows pointing at a message: one if it is live and stored, otherwise none |
| Recording.RowsNeverRemoved | server/database/schema.sql:47-53 | over any run audit rows are neither removed nor rewritten except for the pointer becoming NULL; the log only grows |
| Recording.DeadHaveNoRows | server/database/schema.sql:49 | nothing points at a message that is deleted or was never committed |
| Recording.DeleteWins | server/app/models.py:177-189 | a delete that comes before the store leaves no audit row for that message, ever after |
| RecordingHistory.RowIsSubmitted | server/app/routes.py:64-77 | in every run each audit row comes from a send of the message whose thread sent the row's transaction, and holds the normalised form of the hash that send submitted |
| RecordingHistory.AskedOnce | server/app/routes.py:64-77 | no message is submitted for recording twice, so that send is the only one |
| RecordingHistory.AdmittedIff | server/app/routes.py:68-77 | a send gets a recorder iff the limiter accepts its call, in every interleaving |
| RecordingHistory.EndToEnd | server/app/blockchain.py:64-79 | from the submitted text: its 32 bytes are at the emitted index of the log in every later state, and the receipt shows them |
| RecordingHistory.CheckOnPage | blockchain/verification/js/verify.js:71-117 | shown the receipt of a recorded send the page says Verified iff both fields are filled in and the text has the digest that was submitted, and then the digest is in the log |
| RecordingHistory.LogIsSuccesses | blockchain/contracts/MessageDigest.sol:39-43 | in every run the log holds exactly the digests of the transactions mined with success, in nonce order, each once |
| RecordingHistory.NoDeadlock | server/app/blockchain.py:66-91 | in every reachable state, while a recorder is neither stored nor ended, a step it waits for can happen without anything failing |
| GasBound.GasPerUser | server/app/routes.py:13-27 | in every interleaving, at most ten accepted transactions belong to sends of one user read in a window shorter than 3600 - d |
| GasBound.RunKeepsCalls | server/app/routes.py:68-77 | every recorder thread was admitted by a limiter call of its own sender, no two by the same call |
| Tokens.PurgeInvisible | server/database/schema.sql:35-42 | clock not going back: deleting expired deny-list rows at any points of a run changes no reply |
| Tokens.PurgeRowIff | server/database/schema.sql:36 | removing one row goes unnoticed for ever iff its token has expired by then |
| Tokens.AtMostOnce | server/app/auth_routes.py:82-140 | over runs of whole requests, no refresh token is accepted twice by refresh or logout |
| Tokens.RotationAcceptedIff | server/app/auth_routes.py:89-109 | refresh is accepted iff the run handed the token out, it has not expired and no earlier refresh or logout used it up |
| Tokens.HandedOutIff | server/app/jwt_utils.py:55-81 | the genuine refresh tokens are exactly those that replies handed out |
| Tokens.Conservation | server/app/auth_routes.py:13-140 | in runs without purges, a user's refresh tokens off the deny list number the successful registrations and logins less the successful logouts |
| Tokens.ConservationPurged | server/app/auth_routes.py:13-140 | in runs with purges at any points: the unexpired ones off the deny list number the same less the tokens that expired unused |
| Tokens.LogoutDenies | server/app/auth_routes.py:112-140 | a 200 logout denies exactly its two tokens, neither denied before; any other logout changes nothing |
| Tokens.LoginIff | server/app/auth_routes.py:47-79 | login issues tokens iff an earlier registration in the run succeeded with that name and password |
| TokenAnswers.AnswerIs | server/app/auth_routes.py:13-140 | after any run of requests and purges every request's status is decided by history: names and passwords registered, tokens handed out, used up, logged out, expired |
| TokenAnswers.TokensFor | server/app/jwt_utils.py:55-81 | a reply with tokens carries one unused pair, an hour and a week long, for the account that was created, signed in to with its own name and password, or held the presented token |
| TokenAnswers.TokensOwned | server/app/jwt_utils.py:55-81 | in every run each token ever issued belongs to the account whose name it carries |
| TokenAnswers.AccountsAre | server/app/auth_routes.py:13-44 | the accounts are those whose registration found the name free and wrote its row; names stay unique |
| TokenAnswers.AccessHandedOutIff | server/app/jwt_utils.py:55-81 | the genuine access tokens are exactly those that replies handed out |
| TokenAnswers.DeniedIffClosed | server/app/auth_routes.py:112-140 | purges included: a denied access token was logged out, and a logged-out one is denied or has expired |
| TokenRaces.AcceptedIff | server/app/auth_routes.py:84-140 | in every interleaving of any refreshes and logouts: a request is answered 200 iff its token was good in itself and nothing that uses it up had committed before its lookup, database failures aside |
| TokenRaces.BothAcceptedIff | server/app/db.py:40-47 | two requests with one token are both accepted iff neither looked it up after the other's commit |
| TokenRaces.AdmittedIff | server/app/jwt_utils.py:105-136 | a logout's access token is let in iff it is genuine, unexpired and nothing that uses it up had committed before the lookup |
| TokenRaces.NoDeadlock | server/app/models.py:255-271 | however requests wait for each other's uncommitted rows, while one is unfinished some request can move |
| TokenRaces.RaceGain | server/app/models.py:240-249 | a race over one token adds a live refresh token per accepted rotation and takes one away at the first commit only; nobody else's change |
| TokenRaces.LogoutBesideRotation | server/app/auth_routes.py:112-140 | a logout accepted beside a rotation of the same token leaves its user with as many live tokens as before |
| TokenRaces.OverlapAccepted | server/app/db.py:40-47 | a lookup between the other request's insert and commit passes; the second insert waits for the commit, and the reply is 200 |
| TokenRaces.AloneIsServe | server/app/auth_routes.py:84-140 | a refresh or logout whose steps run uninterrupted does what the serial model says in one step |
| TokenRaces.RaceStepKeeps | server/app/models.py:240-271 | every step keeps: committed rows are exactly those from before and those of the committed requests, and each written row is open or committed |
| Tokens.StepKeepsServer | server/app/auth_routes.py:98-99 | each token carries its own identifier and each deny-list row the expiry of its token, after every request and purge |
| AuthHandlers.AuthServer.VerifyToken | server/app/jwt_utils.py:84-102 | accepts iff signed, unexpired, of the wanted type and not denied |
| AuthHandlers.AuthServer.TokenRequired | server/app/jwt_utils.py:105-136 | a route runs iff an access token is present and verifies |
| AuthHandlers.AuthServer.CreateTokens | server/app/jwt_utils.py:55-81 | issues one access and one refresh token with fresh identifiers and nothing else changes |
| AuthHandlers.AuthServer.AddMany | server/app/models.py:255-271 | all rows are added, conflicts ignored, or none |
| AuthHandlers.AuthServer.Register | server/app/auth_routes.py:15-44 | reply and new state of the registration step, the second lookup after a failed insert included |
| AuthHandlers.AuthServer.Login | server/app/auth_routes.py:49-79 | reply and new state of the login step |
| AuthHandlers.AuthServer.Rotate | server/app/auth_routes.py:84-109 | reply and new state of the refresh step |
| AuthHandlers.AuthServer.Logout | server/app/auth_routes.py:114-140 | reply and new state of the logout step |
| AuthHandlers.AuthServer.Purge | server/database/schema.sql:36 | removes the rows that expired before now |
| Sessions.BetweenCalls | client/web/js/app.js:261-345 | in every run of any number of browsers and outsiders, with purges and sign-ins whose envelope does not open: tokens in memory equal the mirror, are genuine and not denied, the refresh token is its chain's newest, no two browsers share a chain |
| Sessions.SingleHead | server/app/auth_routes.py:98-102 | in such a run, of a logged-in browser's chain exactly its own refresh token still verifies, until it expires |
| Sessions.CallByExpiry | client/web/js/app.js:325-345 | an authorised call, whatever its handler answers other than 401, by the two expiry times, all cases: one request; one refresh and one retry; or the session ends and nothing is issued |
| Sessions.RetryOnce | client/web/js/app.js:325-345 | access expired, refresh not: exactly one refresh and one retry, which succeeds iff it arrives within the new token's hour; the new pair is kept |
| Sessions.LogoutIff | client/web/js/app.js:374-384 | the browser always forgets; the server logs out iff the access token had not expired |
| Sessions.LateLogout | client/web/js/app.js:374-384 | otherwise a week-long refresh token of the same chain is left that no browser holds |
| Sessions.KeysIff | client/web/js/app.js:231-259 | after a registration or login answered with tokens, memory and mirror agree iff importing the key did not fail |
| Sessions.ReloadKeeps | client/web/js/app.js:278-299 | a page reload loses nothing of a session that is in order |
| Sessions.RestoredIff | client/web/js/app.js:278-299 | a stored entry is taken over iff it is JSON with an envelope and an access token; otherwise nothing is left of it |
| Sessions.SignInWorks | client/web/js/app.js:231-259 | with no session one request signs in, with that reply's pair, iff the server hands one out |
| Sessions.LogoutUnnamed | client/web/js/app.js:374-384 | with no refresh token to name, the server refuses the logout and changes nothing |
| Sessions.AtMostThree | client/web/js/app.js:325-345 | for every client and server state a call makes at most three requests, only the second a refresh, and only after a 401 |
| Sessions.ServeHeads | server/app/auth_routes.py:82-109 | every request keeps all but the newest refresh token of each chain denied or expired |
| BrowserClient.Browser.ApiFetch | client/web/js/app.js:325-345 | session, server, outcome and the exact exchange of requests of one call |
| BrowserClient.Browser.TryRefreshToken | client/web/js/app.js:307-323 | on success new tokens in memory and mirror, after a refusal nothing changed in the browser; a mirror that cannot be read is a failure too |
| BrowserClient.Browser.StoreSession | client/web/js/app.js:231-259 | what is in memory and mirror after each way the key material can fail |
| BrowserClient.Browser.RestoreSession | client/web/js/app.js:278-299 | true, with the stored tokens and the entry kept, iff entry, envelope, access token and key are in order; every other entry is removed, an undecodable key leaving the tokens in memory |
| BrowserClient.Browser.UpdateSessionStorage | client/web/js/app.js:261-268 | the mirror takes the tokens in memory if there is a readable mirror, and fails on an unreadable one |
| BrowserClient.Browser.ClearSession | client/web/js/app.js:270-273 | memory and mirror are empty |
| BrowserClient.Browser.LogIn | client/web/js/app.js:366-372 | the whole sign-in action |
| BrowserClient.Browser.LogOut | client/web/js/app.js:374-384 | the whole logout action, sent whenever there is an access token |
| MessageStore.AccessIsHistory | server/app/routes.py:38-42 | in every reachable state a user can read a message iff it was created, not deleted, and the user is a party or was last granted, not revoked |
| MessageStore.InboxIsHistory | server/app/models.py:141-158 | whatever order ties take, the inbox holds exactly those messages, each once, newest first |
| MessageStore.InboxAgrees | server/app/models.py:141-158 | the inbox query returns a message iff the point check allows it |
| MessageStore.GetAgrees | server/app/routes.py:94-103 | GET answers 200 iff the message is in the list |
| MessageStore.InboxNamed | server/app/models.py:144-150 | every returned row carries its own sender's name and key and its own recipient's name |
| MessageStore.JoinKeepsMessages | server/database/schema.sql:15-24 | given the keys, the two joins yield one row per message, in order |
| MessageStore.GrantsNameOthers | server/app/routes.py:170-171 | no grant names the message's sender or recipient; sender and recipient differ |
| MessageStore.HandleKeeps | server/database/schema.sql:4-33 | every request keeps primary keys, foreign keys and the cascade |
| MessageStore.OnlyOwnersAct | server/app/routes.py:106-195 | only the sender or recipient deletes, only the sender grants or revokes, nobody sends in another name |
| MessageStore.AnswerIs | server/app/routes.py:50-195 | after any run every request's status is decided by history: who is a user, which messages live, who is a party, which grants stand |
| MessageStore.EffectIs | server/app/routes.py:50-195 | a request does exactly what it asks for, under a fresh id, iff it is answered 200 or 201, and nothing otherwise |
| MessageStore.WritesAre | server/app/models.py:177-232 | which rows a successful grant, revocation or deletion adds, changes and removes, all others staying as they were |
| MessageStore.UsersAre | server/app/models.py:16-26 | the users table holds the registrations, in order, under the ids drawn |
| MessageStore.ReadBack | server/app/models.py:90-103 | while a message lasts, sent or forwarded, the row is what was submitted, field by field |
| MessageHandlers.MessageService.SendMessage | server/app/routes.py:53-83 | status and new tables of a send |
| MessageHandlers.MessageService.ForwardMessage | server/app/routes.py:129-154 | status and new tables of a forward |
| MessageHandlers.MessageService.GetMessage | server/app/routes.py:97-103 | status of a read |
| MessageHandlers.MessageService.DeleteMessage | server/app/routes.py:109-123 | status and new tables of a delete, grants included |
| MessageHandlers.MessageService.GrantAccess | server/app/routes.py:160-176 | status and new tables of a grant |
| MessageHandlers.MessageService.RevokeAccess | server/app/routes.py:182-195 | status and new tables of a revocation |
| MessageHandlers.MessageService.HasGrant | server/app/models.py:192-198 | finds an unrevoked grant row iff there is one |
| MessageHandlers.MessageService.MayRead | server/app/routes.py:38-42 | sender, recipient, or holder of an unrevoked grant |
| MessageHandlers.MessageService.CreateMessage | server/app/models.py:90-103 | the id is drawn even when a foreign key refuses the row |
| MessageHandlers.MessageService.MessageById | server/app/models.py:161-174 | the join of messages and users row by row gives the first joined row with that id |
| MessageHandlers.MessageService.UpsertGrant | server/app/models.py:201-215 | the grant row is reopened in place or added |
| MessageHandlers.MessageService.RemoveGrants | server/database/schema.sql:28 | the cascade drops exactly the message's grants, in order |
| Conversations.Conversation.AddMessage | client/cpp/src/Conversation.cpp:8-12 | the index stays in step with the flat list of additions; null is ignored |
| Conversations.Conversation.GetThread | client/cpp/src/Conversation.cpp:14-30 | a time-sorted permutation of exactly the messages between the two users, either way |
| Conversations.Conversation.MessageCount | client/cpp/src/Conversation.cpp:32-36 | the number of those messages |
| Conversations.Conversation.FindLatest | client/cpp/src/Conversation.cpp:38-52 | the first of the latest messages of the thread, or none |
| Conversations.Conversation.TotalCount | client/cpp/src/Conversation.cpp:54-62 | the number of additions |
| Conversations.SortByTime | client/cpp/src/Conversation.cpp:25-27 | sorted by timestamp, same messages |
| Conversations.KeyEqualIff | client/cpp/src/Conversation.cpp:4-6 | names free of the separator: equal keys iff the same pair in either order |
| Conversations.RegisteredKeyIff | server/app/validators.py:64-75 | user names as registered always satisfy that |
| Conversations.BarCollides | client/cpp/src/Conversation.cpp:4-6 | two different pairs with a separator in a name share a key |
| Conversations.FiledIsBetween | client/cpp/src/Conversation.cpp:8-23 | the messages filed under a pair's key are those between the pair |
| Conversations.LatestEndsThread | client/cpp/src/Conversation.cpp:38-52 | the one-pass latest has the timestamp of the sorted thread's last element |
| Base64.RoundTrip | client/web/js/app.js:6-18 | b64ToBytes(bytesToB64(b)) = b for every byte string |
| Base64.AtobIff | client/web/js/app.js:6-12 | atob succeeds iff the text without white space is standard characters, not one over whole groups, with no or complete padding; it then reads their bits |
| Base64.SpacesIgnored | client/web/js/app.js:6-12 | white space anywhere makes no difference to atob |
| Base64.UrlRoundTrip | client/web/js/app.js:21-23 | URL form, mapped back and re-padded, is the standard encoding again; at most two characters are added |
| Base64.B64UrlIs | client/web/js/app.js:21-23 | the URL form is the same sextets in the URL-safe alphabet |
| Base64.RestorePadding | client/web/js/app.js:168-169 | the padding loop ends at the next multiple of four having added only padding |
| Base64.ScalarThroughJwk | client/web/js/app.js:33-170 | a private scalar written to a JWK and read back is unchanged |
| Base64.DecodeLoop | client/web/js/app.js:6-12 | the copying loop returns the decoded bytes, or fails where atob does |
| Base64.EncodeLoop | client/web/js/app.js:14-18 | the loop over characters returns the encoding |
| Base64.MatchesBodyIff | server/app/validators.py:29-35 | the pattern accepts iff the length is a multiple of four and everything but the padding is in the alphabet |
| Base64.EncodeMatches | server/app/validators.py:29-35 | every encoder output passes the validator |
| Base64.AcceptedDecodes | server/app/validators.py:29-35 | every accepted string, in either alphabet, decodes to three quarters of its length less its padding |
| Base64.ReencodeIff | client/web/js/app.js:6-18 | encoding again gives the standard form iff the unused bits are zero |
| Base64.PublicKeyValidIff | server/app/validators.py:88-99 | a public key is accepted iff it is 43 standard characters and one pad; browser and server then decode alike |
| Base64.PyAgreesIff | server/app/crypto.py:150-151 | on every accepted string Python and the browser decode alike iff it is in the standard alphabet |
| Base64.PyRoundTrip | server/app/crypto.py:122-151 | the Python decoder undoes the encoder |
| Base64.PyDiffersOnUrlSafe | server/app/crypto.py:150-151 | an accepted string on which the two decoders differ |
| SealOpen.CrossOpen | server/app/crypto.py:81-168 | either implementation opens what either sealed, for all keys, texts and associated data |
| SealOpen.SealsAgree | client/web/js/app.js:64-92 | both implementations produce the same output from the same inputs |
| SealOpen.OpensAgree | client/web/js/app.js:96-120 | both openers agree on all standard-alphabet input |
| SealOpen.OpensRespelledIff | server/app/crypto.py:128-168 | a sealed message in any accepted spelling: the browser gives the text back, the Python mirror iff both fields are in the standard alphabet |
| SealOpen.HkdfAgree | client/web/js/app.js:49-57 | an absent salt and an empty salt give the same HKDF output |
| SealOpen.ConcatBytes | client/web/js/app.js:40-46 | the offset loop produces the concatenation |
| SealOpen.ContextInjective | server/app/crypto.py:115 | on 32-byte keys the context determines ephemeral key, sender and recipient |
| SealOpen.LabelsSeparate | server/app/crypto.py:117-197 | no two kinds of info string are ever equal, but for one context no key triple can spell |
| SealOpen.CrossUnwrap | server/app/crypto.py:176-236 | a private key wrapped by either implementation is recovered by either under the same password |
| SealBinding.OnlyPartiesOpen | server/app/crypto.py:81-168 | whoever opens a sealed message, claiming any sender, shares both exchanges with its parties, names the true sender and holds the recipient's public key, unless the derived keys involved collide |
| SealBinding.OnlyPasswordOpens | server/app/crypto.py:176-236 | a wrapped private key opens only under a password with the same Argon2id output, with the same proviso |
| SealBinding.NonceApart | server/app/crypto.py:115-119 | a message's nonce is not the first twelve bytes of its key, as long as HKDF keeps the two labels apart |
| Secrecy.StoredStateSecrecy | server/app/models.py:16-26 | in every run nothing deducible from stored rows, digests and one's own keys is a password, a message text, or any private key, a user's or an ephemeral one, not one's own |
| Secrecy.SenderAuthentic | server/app/crypto.py:90-92 | in every run, whatever other and ephemeral scalars the onlooker holds: any deducible box under a key of the exchange between two honest users is the box of a stored message between them, in the direction the context names |
| Secrecy.KeysLeakIff | client/web/js/app.js:178-209 | for any tables, some private key is deducible iff a password hash and an envelope share password and salt |
| Secrecy.Closure | docs/crypto_design.md:79-85 | deduction from harmless terms yields harmless terms only |
| Secrecy.RecipientOpens | client/web/js/app.js:96-120 | with its private key the recipient can deduce the text |
| Secrecy.OwnerUnwraps | client/web/js/app.js:178-209 | with the password added to what is stored, the private key can be deduced |
| Secrecy.RowsBound | server/app/crypto.py:90-119 | every stored message is sealed under the exchange of its own two users with a context that names them |

## Modelling decisions

- Primitives (X25519, SHA-256, AES-GCM, Argon2id, RS256, keccak) are parameters with their laws, or
  symbolic terms. Transaction hashes and signatures are taken to be collision-free and unforgeable.
  Token identifiers, salts, nonces and keys are fresh.
- The recording account is used by this one process, the node counts accepted transactions as
  pending, and the account owns the contract. A transaction may be mined and fail.
- Row locks follow the database's rules: UPDATE and DELETE of one row exclude each other until
  commit, the INSERT's foreign key waits for a deleter and fails without a visible message.
- Server requests run one after the other in `Tokens.dfy` and `Session.dfy`; `Races.dfy` takes
  refreshes and logouts apart, reads committed rows only, and lets an insert wait for another open
  transaction's row. A browser makes one call at a time and no response is lost. Purge and token
  expiry are read off clocks that agree and do not go back.
- Public keys are 32 bytes; both openers refuse others. Decryption succeeds only on what encryption
  under the same key, nonce and data produces, as in AES-GCM.
- That two derived keys differ, and that a ciphertext opens under one key only, holds for real primitives with
  overwhelming probability only; `Binding.dfy` states it as a hypothesis on the inputs at hand (`NoClash`,
  `Commits`).
- The verification page's fetch is a function from the trimmed hash to a receipt, nothing, or an
  exception; entries of the contract itself name records it holds.
- A failed commit or write is an input (`dbOk`, `Fail`); so are clock readings, mining results and
  what a protected route's handler answers.
- Messages and reads whose fields do not influence a result are left as plain strings. In the
  message store a user is created without the name check, which is modelled with the accounts.
- `std::sort` stands for any sort; ties may come in any order and no result depends on it.

## Left out

- AuthHandlers.AuthServer.Register: a step of runs of whole requests, in which the second lookup after a failed insert never finds the name, so its 409 does not occur; overlapping registrations of one name are not modelled.
- Multi-process deployments: the limiter's table and the nonce lock belong to one process.
- The connection pool, and exceptions raised after a write in the same request (`server/app/db.py:40-47`): outside `Races.dfy` and `Recording.dfy` a request's writes succeed together or not at all.
- Body parsing, the threat patterns and length limits of the validators other than those of public keys, user names and content hashes.
- Flask wiring, request rate limits, CORS, TLS, logging and configuration.
- Text encoding: `hpkeOpen` is modelled up to the bytes; the text decoder's treatment of invalid sequences and of a byte-order mark is not.
- Guessing attacks, key compromise and a server that serves altered code: the symbolic model treats hashes as one-way and the onlooker as passive.
- Ordinary reads that only copy a row (`/auth/me`, public-key lookup), `set_tx_hash`, the native client's message store and the user interface.
- Gas price and gas estimation, and transactions replaced or dropped by the node after acceptance.
