# Verification model of the storage server's stateful core

The server stores fixed-size encrypted blocks for clients that authenticate with
DPoP-bound access tokens issued for one of two audiences (vault and admin). This
project models the parts of it in which several requests meet in shared state, or in
which an encoding has to identify something, and proves what they keep.

| part | files | modelled as |
|---|---|---|
| replay store | `Replay`, `ReplayRuns`, `ReplayTheorems` | a class with the map, the heap and the published length, each critical section one method; and a machine in which any number of inserters and cleanup ticks interleave between critical sections |
| clock arithmetic and `[auth]` configuration | `Timing`, `Config` | the saturating, wrapping and checked `u64` operations next to unbounded integers |
| key sets | `JwksIndex`, `Crypto`, `JsonText`, `Base64Url` | the parsing loop, its three indexes and a linear scan of the document; the text that is hashed into a key's thumbprint |
| key-set refresh | `Contexts`, `Startup`, `Refresh`, `InstallTheorems`, `InstallRaces`, `ClaimTheorems`, `TokenTheorems`, `RefreshProgress`, `RefreshExamples` | a machine of token validations and scheduled refreshes at the granularity of single atomic loads, compare-and-swaps and stores |
| request pipeline | `Failure`, `Token`, `Dpop`, `AuthHeader`, `Middleware` | the checks in their order, over the replay store's class |
| block store | `BlockNames`, `FileSystem`, `LocalFs`, `BlockRuns`, `BlockProofs`, `BlockTheorems`, `BlockProgress`, `BlockRoutes`, `BlockSizes` | a file system of names, inodes and bytes; the provider as a class over it; and a machine that interleaves any number of operations between system calls, each of which may fail or be the last |

A machine is a deterministic `Step` on events, guarded by `Enabled`; a run is a list of
events, and every theorem about runs holds for all lists. The choices of the
environment (which thread moves, what the clock shows, what a fetch returns, which
system call fails) are the events.

Time is one integer clock of nanoseconds for the replay store, which the freshness test
reads in whole seconds; the freshness test and the first critical section of an insert
share an instant, as nothing yields between them. Clock readings in the refresh
machine are arbitrary, so its results hold for a clock that goes backwards.

## Where the code says less than its comments

- `server/src/auth/context.rs:105-107` calls the completion time monotonic. It is, as
  long as no two winning refreshes overlap (`CompletionIsMonotone`); once two do, it can
  decrease (`OverlapCanGoBack`). `CompletionsMonotoneIff` says in which runs it did.
- `server/src/auth/jwks.rs:331-334` promises a waiting caller that an attempt begun at or
  after its snapshot has completed. With a snapshot of 0 nothing need have completed:
  `EarlyLoserRetriesTooSoon`, and `LoserGuaranteeIff` for the exact condition.
- `server/src/auth/context.rs:341-351` checks disjointness and then stores. If the two
  contexts ever share a key, the installs overlapped (`SharedKeysMeanOverlap`); and two
  refreshes that carry overlapping sets let both in exactly when neither stores before
  the other looks (`SharedIffLooksCameFirst`).
- `server/src/auth/dpop.rs:225-237` announces that an overflowing deadline falls back to
  the current time; the code rejects the proof as stale, and so does the model. That is
  why `AtMostOnceIff` also covers windows so long that a second deadline overflows.
- The window that configuration loading enforces, and takes as its default when the key
  is left out, is freshness plus skew (`server/src/config/validate.rs:81-102`). It covers
  every proof dated before the second of its acceptance
  (`ValidatedWindowCoversPastProofs`) but not one dated ahead
  (`OmittedWindowIsNotAtMostOnce`); the window that covers every proof is longer than
  freshness plus twice the skew.
- The `unreachable!` arm of `server/src/auth/jwks.rs:410-456` is reached by a document
  with an octet key that advertises PS256 or ES256 (`ParsePanicsIff`).

## Model

| member | source | states |
|---|---|---|
| Replay.JtiReplayStore.constructor | server/src/auth/replay.rs:110-122 | a new store is empty in both structures and settled |
| Replay.JtiReplayStore.InsertLocked | server/src/auth/replay.rs:133-152 | a key already present is a replay even at capacity; a new key at capacity is memory pressure; only a success changes the map, and the length is published with it |
| Replay.JtiReplayStore.TryInsert | server/src/auth/replay.rs:133-159 | both critical sections together: a rejection changes nothing, a success adds one pair to map and heap alike, and a settled store stays settled |
| Replay.JtiReplayStore.PopExpired | server/src/auth/replay.rs:163-175 | the peek-and-pop loop removes exactly the heap elements whose deadline has come, and returns exactly their keys |
| Replay.JtiReplayStore.RemoveAll | server/src/auth/replay.rs:180-185 | the removal loop takes exactly the given keys out of the map and publishes the new size |
| Replay.JtiReplayStore.MaintenanceTick | server/src/auth/replay.rs:163-185 | on a settled store a tick leaves the map equal to its filter by `deadline > now`, and the store settled |
| Replay.JtiReplayStore.Len | server/src/auth/replay.rs:188-190 | on a settled store the published length is the size of the map and of the heap alike |
| Replay.TickIsFilter | server/src/auth/replay.rs:163-185 | the heap-driven two-phase tick refines the one-pass filter, and map and heap agree on the same pairs afterwards |
| Replay.ExpiredIsUnique | server/src/auth/replay.rs:167-174 | splitting a heap by deadline has one outcome, whatever order equal elements come out in |
| Replay.KeyIdentifies | server/src/auth/replay.rs:71-79 | keys separate audiences, and within one the `jti`s whose hashes differ |
| ReplayRuns.StepKeepsInv | server/src/auth/replay.rs:133-185 | the ownership, bound and memory invariant is kept by every critical section of every thread in every order |
| ReplayRuns.RemovedWereDue | server/src/auth/replay.rs:163-185 | in any reachable state, everything a ticker has popped is still in the map under its own deadline, which is not after that tick's time; the removal takes out those keys and no others |
| ReplayTheorems.ExactlyOneOwner | server/src/auth/replay.rs:133-185 | in every reachable state each key of the map is held exactly once by exactly one of heap, inserter and ticker, with the map's deadline, and nothing else is held |
| ReplayTheorems.QuietIsSettled | server/src/auth/replay.rs:133-185 | whenever no operation is in flight, map and heap hold the same pairs |
| ReplayTheorems.SizesAndConservation | server/src/auth/replay.rs:140-184 | published length = map size <= capacity, heap size <= map size, and accepted inserts = present + removed over any run |
| ReplayTheorems.ReplayIsDetectedAtCapacity | server/src/auth/replay.rs:124-150 | until its window has passed, a second proof with an accepted audience and `jti` is never accepted and never reported as memory pressure, also when the store is full |
| ReplayTheorems.RefusedWasSeen | server/src/auth/replay.rs:141-143 | in every reachable state, a proof is refused as replayed only if one with its audience and `jti`, up to a hash collision, was accepted before |
| ReplayTheorems.UnseenIsAccepted | server/src/auth/dpop.rs:186-246 | in every reachable state, a proof within the freshness window, with a representable deadline and not seen before, is accepted while the map is below capacity |
| ReplayTheorems.AcceptedTwice | server/src/auth/dpop.rs:186-246 | if one proof is accepted twice, `iat + freshness + skew` reaches the first acceptance plus the window: the tight bound |
| ReplayTheorems.ValidatedWindowCoversPastProofs | server/src/config/validate.rs:81-102 | a window of at least freshness plus skew never lets a proof dated before the second of its first acceptance be accepted again |
| ReplayTheorems.AcceptedWithinSkew | server/src/auth/dpop.rs:190-199 | an accepted proof is dated at most the skew ahead of its acceptance |
| ReplayTheorems.SecondAcceptance | server/src/auth/dpop.rs:186-246 | for every window up to freshness plus twice the skew, a run that accepts one proof twice |
| ReplayTheorems.AtMostOnceIff | server/src/auth/dpop.rs:186-246 | every run accepts every proof at most once if and only if the window exceeds freshness plus twice the skew, or a second deadline could not be represented |
| Timing.FreshIsExactIff | server/src/auth/dpop.rs:190-199 | the `u64` freshness test has its unbounded meaning for every claim and clock iff freshness plus skew does not overflow |
| Timing.ExpiredIsExactIff | server/src/auth/token.rs:228-235 | the saturating expiry test has its unbounded meaning iff the clock is below the largest `u64` or the sum fits |
| Timing.NotYetValidIsExact | server/src/auth/token.rs:236-240 | saturation never changes the not-before answer |
| Config.ParseAuthIff | server/src/config/validate.rs:54-155 | loading yields a configuration iff every field resolves to it (absent takes its default, present denotes a positive number in range) and the window covers freshness plus skew without overflow |
| Config.LoadedIsValid | server/src/config/validate.rs:54-113 | what the arithmetic needs of a configuration holds of every loaded one |
| Config.LeftOut | server/src/config/server_config.rs:52-65 | what an absent block and each absent key load as, in numbers |
| Config.CapacityIff | server/src/config/validate.rs:125-155 | the capacities that can be configured, as numbers or texts |
| Config.LoadedFreshnessIsExact | server/src/config/validate.rs:76-88 | for every loaded configuration the freshness test means what it says |
| Config.LoadedAtMostOnceIff | server/src/config/validate.rs:81-102 | which loaded configurations accept every proof at most once |
| Config.OmittedWindowIsNotAtMostOnce | server/src/config/validate.rs:89-91 | leaving the window out resolves to the enforced minimum and admits a double acceptance |
| Base64Url.EncodeShape | server/src/auth/crypto.rs:88-109 | an encoding consists of alphabet characters only and its length is determined by the byte count (section 5 of RFC 4648, no padding) |
| Base64Url.EncodeMeans | server/src/auth/crypto.rs:88-109 | every character of an encoding stands for its own six bits of the byte string, with zero bits added at the end |
| Base64Url.AlphabetOrder | server/src/auth/crypto.rs:88-109 | the url-safe alphabet by its ends, counting up in between |
| Base64Url.DecodeEncode | server/src/auth/crypto.rs:88-109 | decoding an encoding gives back every byte string |
| Base64Url.EncodeDecode | server/src/auth/token.rs:242-251 | a text that decodes is the encoding of what it decodes to, so no two texts decode alike |
| Base64Url.DecodesIff | server/src/auth/token.rs:242-251 | which texts decode: alphabet, length not one modulo four, no stray low bits |
| Crypto.CanonicalJsonInjective | server/src/auth/crypto.rs:88-109 | distinct public keys have distinct canonical JSON, over all RSA byte pairs and EC coordinate pairs and across the two types (sections 3.1 and 3.2 of RFC 7638) |
| JsonText.CanonicalReadsBack | server/src/auth/crypto.rs:88-109 | read back as a JSON object, the text has exactly the required members of the key, each with its own value, in strictly increasing order of names |
| Crypto.ThumbprintIdentifiesKey | server/src/auth/crypto.rs:75-81 | equal thumbprints mean equal keys unless the hash collides on the two texts |
| JwksIndex.ParseJwks | server/src/auth/jwks.rs:364-408 | the one loop over three collections computes the index of the PS256 and ES256 keys, or the first failure among them |
| JwksIndex.ThumbprintIff | server/src/auth/jwks.rs:410-456 | which keys have which thumbprint, by their decoded members: the hash of the canonical text of modulus and exponent, or of two 32-byte coordinates on P-256 |
| JwksIndex.IndexByKid | server/src/auth/jwks.rs:384-399 | a kid is indexed iff some accepted key carries it, and then leads to the last such key in document order |
| JwksIndex.IndexByThumbprint | server/src/auth/jwks.rs:384-399 | the thumbprints indexed are exactly those of the accepted keys |
| JwksIndex.LookupIsLinearScan | server/src/auth/jwks.rs:126-133 | a lookup answers as a scan of the document would: the last key with the kid, or else the keys without a kid in order |
| JwksIndex.ParsedSetIsSound | server/src/auth/jwks.rs:364-408 | a parsed set has a candidate to offer, and every candidate any lookup returns is a PS256 or ES256 key of the document under that algorithm, its own kid and its own thumbprint, which is indexed |
| JwksIndex.ParsedSetIsComplete | server/src/auth/jwks.rs:364-408 | the thumbprint index holds exactly the thumbprints of the document's PS256 and ES256 keys, and each of them has one |
| JwksIndex.ParsePanicsIff | server/src/auth/jwks.rs:410-456 | parsing panics iff an octet-typed key advertises an allowed algorithm before any other allowed key fails |
| JwksIndex.OctetKeyReachesTheUnreachable | server/src/auth/jwks.rs:410-456 | a one-key document that does |
| JwksIndex.CheckDisjoint | server/src/auth/context.rs:244-258 | the early-exit loop accepts iff the thumbprint indexes have no key in common |
| JwksIndex.DisjointIff | server/src/auth/context.rs:244-258 | two parsed sets pass the check iff no PS256 or ES256 key of one document has the thumbprint of such a key of the other |
| JwksIndex.DisjointCandidates | server/src/auth/context.rs:244-258 | after the check, no lookup in one set returns a key that any lookup in the other returns, also where repeated kids hide keys |
| Startup.InitSingleContext | server/src/auth/context.rs:190-234 | what each failure of discovery, fetch and parse is reported as |
| Startup.InitContexts | server/src/auth/context.rs:273-316 | success leaves two disjoint parsed sets, a state any refresh run may begin from; failure names the first context that could not be had, or the overlap with admin |
| InstallTheorems.SharedKeysMeanOverlap | server/src/auth/context.rs:326-353 | in any run, if the current sets share a thumbprint, the installs that put them there overlapped: each loaded the other context before the other stored |
| InstallTheorems.DisjointWhileApart | server/src/auth/context.rs:293-353 | startup disjointness is kept as long as installs of different contexts do not overlap, with scheduled and on-demand refreshes mixed freely |
| InstallRaces.SharedIffLooksCameFirst | server/src/auth/context.rs:341-351 | when refreshes of the two contexts carry overlapping sets, each disjoint from what the other context holds, then over every order of their steps and any others' the contexts end up sharing a key iff neither store came before the other refresh's look |
| InstallRaces.BothCanInstall | server/src/auth/context.rs:341-351 | from every such state, an order in which both install |
| InstallRaces.OverlappingInstallsShareKeys | server/src/auth/context.rs:326-353 | such states are reached: a run in which two scheduled refreshes install the same document in both contexts |
| ClaimTheorems.ClaimGapIff | server/src/auth/jwks.rs:276-303 | over all interleavings and any clock, successive claims of a context are at least the interval apart iff the earlier claim plus the interval fits a `u64` |
| ClaimTheorems.FetchesWithin | server/src/auth/jwks.rs:276-320 | at most `(b - a) / interval + 1` claims are made within [a, b], so at most as many fetches are launched with claim times there, those still out and those abandoned included; every attempt's fetch returns at most once |
| ClaimTheorems.CompletionIsOfAnEndedAttempt | server/src/auth/jwks.rs:309-329 | the completion time is 0 or the claim of an attempt whose fetch and install are over, and never exceeds the last claim |
| ClaimTheorems.LoserGuaranteeIff | server/src/auth/jwks.rs:331-360 | a waiter may retry iff the completion time has reached its snapshot, waits once otherwise, and then gets its first verdict; "only once an attempt claimed at or after the snapshot has ended" is kept iff the snapshot is positive or some attempt has ended |
| ClaimTheorems.CompletionIsMonotone | server/src/auth/jwks.rs:321-326 | without overlapping winners no step decreases the completion time |
| ClaimTheorems.CompletionsMonotoneIff | server/src/auth/jwks.rs:321-326 | over a run the recorded completions never decrease iff attempts ended in the order they were claimed |
| RefreshExamples.EarlyLoserRetriesTooSoon | server/src/auth/jwks.rs:339-360 | a run in which a waiter with snapshot 0 may retry while the only fetch is still out |
| RefreshExamples.OverlapCanGoBack | server/src/auth/jwks.rs:321-326 | the converse of monotonicity: from every reachable state with two winners of one context in flight and room in the clock, some continuation decreases the completion time |
| RefreshExamples.OverlappingWinnersGoBack | server/src/auth/jwks.rs:321-326 | such states are reached: a run in which the completion time decreases |
| Token.TryDecode | server/src/auth/token.rs:270-293 | the candidate loop computes the verdict of the scan |
| Token.ScanMeaning | server/src/auth/token.rs:270-293 | an attempt succeeds iff some candidate verifies, with the first such one; otherwise the last candidate with an error decides the failure |
| Token.FailureNames | server/src/auth/token.rs:298-313 | which failure a rejected attempt is reported as, by the error of the last candidate that had one |
| Token.CheckClaimsIff | server/src/auth/token.rs:177-262 | the accepted claims are exactly those complete, for this issuer and single audience, within their unbounded-integer lifetime, confirming a key by the unique base64url text of 32 bytes |
| Token.RejectionsIff | server/src/auth/token.rs:177-240 | when each mismatch is the one reported, on unbounded integers |
| TokenTheorems.CacheIsSound | server/src/auth/jwks.rs:223-240 | in every reachable state a cached key set is the parse of some document, is not empty, offers only its PS256 and ES256 keys under their own thumbprints and indexes the thumbprints of exactly those |
| TokenTheorems.AcceptedTokenIsVerified | server/src/auth/token.rs:156-175 | an accepted token was verified by a candidate of a set its own context held at one of the two loads, with at most one refresh between |
| TokenTheorems.RejectedTokenReportsFirstError | server/src/auth/token.rs:156-175 | a rejected token reports its first attempt's error, and the second attempt, if any, failed too |
| TokenTheorems.LaterLoadsSeeInstall | server/src/auth/token.rs:264-276 | whatever an attempt loads after a store in its context is the set that store installed or one installed later |
| TokenTheorems.RetrySeesOwnInstall | server/src/auth/token.rs:156-175 | a validation that won the refresh slot and tries again has installed a set, and tries against that set or one installed later |
| RefreshProgress.WinnerTriesAgainIff | server/src/auth/token.rs:156-175 | once decided, a validation that won the slot has made a second attempt iff it installed what it fetched, and is accepted whenever a candidate of the set it then loaded verifies |
| RefreshProgress.RotationIsFollowed | server/src/auth/jwks.rs:305-329 | from every state in which a validation has won the slot, a good disjoint document with a verifying candidate leads it to acceptance by its own next five steps |
| RefreshProgress.SnapshotIsLastClaim | server/src/auth/jwks.rs:281-303 | the snapshot a waiter compares completions with is the last claim of its context at the moment it loaded it |
| RefreshProgress.GoneIsProvoked | server/src/auth/jwks.rs:269-360 | a validation disappears without a verdict only if its task vanished or parsing panicked on what it fetched |
| RefreshProgress.CanDecide | server/src/auth/token.rs:113-175 | from every state of a run, a validation that is still there reaches a verdict by its own steps alone, even if its fetch fails |
| Dpop.CheckProof | server/src/auth/dpop.rs:128-241 | the first of fifteen ordered rules that fails is the one reported; success means all hold |
| Dpop.ProofMatchesIff | server/src/auth/dpop.rs:128-300 | the rules hold exactly of the proofs in order: an allowed algorithm, a key with the thumbprint the token confirms, this verb, this scheme, host, port, path and query with no user named, a freshness window on unbounded integers, and an `ath` that decodes to the hash of the raw token |
| Dpop.ValidateProof | server/src/auth/dpop.rs:119-258 | a proof is accepted iff it is in order and the store has room and no key of its audience and hashed `jti`; a replay is reported only if that key is there; every rejection leaves the store alone; acceptance adds that key with its deadline |
| Dpop.JudgedAlike | server/src/auth/dpop.rs:186-246 | a proof that passes the rules is accepted by the interleaved replay machine iff by the store's method, under the same key |
| Dpop.OthersAreNotReplays | server/src/auth/dpop.rs:224-246 | remembering one proof never makes another, of the other context or with a `jti` that hashes otherwise, look like a replay |
| Middleware.DecidedAsDecoded | server/src/auth/token.rs:156-175 | whatever the refresh machine decides for a token validation is the verdict the pipeline computes from the key sets it looked at |
| Middleware.TokenNeverReportsPressure | server/src/auth/token.rs:113-268 | token validation never reports a replay or memory pressure |
| Middleware.ValidateTokenIff | server/src/auth/token.rs:113-262 | token validation accepts iff the algorithm is allowed and the claims of the first verifying candidate, of the first set or else of the second, are complete, for this issuer and audience, begun and unexpired |
| Middleware.RequestMatchesIff | server/src/auth/middleware.rs:185-246 | the pipeline's conditions hold iff headers, URI, token and proof are in order |
| AuthHeader.BearerTokenIff | server/src/auth/middleware.rs:190-209 | which header values carry which token: the scheme in any case, one space, and a nonempty token between blanks |
| Middleware.AuthenticateCommon | server/src/auth/middleware.rs:185-246 | the first thing amiss in headers, URI, token and proof is the one reported; a request is accepted iff all are in order and the store has room and no such key; a rejection leaves the store alone, an acceptance adds the one key of its proof tagged with its own context, and yields the token's subject |
| Middleware.Guard | server/src/auth/middleware.rs:115-175 | other verbs pass untouched; a request is forwarded, with its token's subject, iff it is in order and its proof is new and fits; 503 iff only room is lacking |
| BlockNames.IsBase64UrlByte | server/src/storage/block_id.rs:79-94 | the branch-free byte test agrees with the alphabet of section 5 of RFC 4648 |
| BlockNames.ParseBlockId | server/src/storage/block_id.rs:37-50 | the accumulating loop accepts exactly the 43-byte strings over the alphabet, unchanged |
| BlockNames.EncodingIsValidId | server/src/storage/block_id.rs:28-36 | the encoding of every 32-byte value is an identifier |
| BlockNames.EncodesAValueIff | server/src/storage/block_id.rs:33-36 | an identifier encodes a 32-byte value iff its last two bits are zero |
| BlockNames.BlockPathInjective | server/src/storage/path.rs:17-25 | distinct identifiers have distinct paths |
| BlockNames.ScratchNamesAreNoBlocks | server/src/storage/local_fs.rs:91-182 | no temporary or probe file ever has a block's path |
| BlockNames.BlockPathUnderRoot | server/src/storage/path.rs:17-25 | every block path is the root, two levels of two characters each, and the identifier |
| FileSystem.RenamePublishes | server/src/storage/local_fs.rs:199-204 | renaming a temporary file makes exactly its bytes visible under the identifier and changes no other block |
| FileSystem.UnlinkRemoves | server/src/storage/local_fs.rs:229-240 | removing a block's name takes exactly that block out of the map |
| FileSystem.CreateKeepsVisible | server/src/storage/local_fs.rs:179-187 | creating a temporary file changes no block |
| FileSystem.AppendKeepsVisible | server/src/storage/local_fs.rs:188-192 | writing to an inode that no block path names changes no block |
| FileSystem.UnlinkTempKeepsVisible | server/src/storage/local_fs.rs:188-203 | dropping a temporary file changes no block |
| LocalFs.LocalFsProvider.RunPut | server/src/storage/local_fs.rs:150-205 | a put succeeds iff none of its calls fails and its temporary name is free, and then maps the identifier to the whole payload; one that fails at any step changes no block |
| LocalFs.LocalFsProvider.WriteAll | server/src/storage/local_fs.rs:188-192 | writes of any size leave the payload in the temporary inode iff there is room for it, and change no block |
| LocalFs.LocalFsProvider.Get | server/src/storage/local_fs.rs:217-227 | reading in chunks of any size returns the block's bytes unless a call fails; not-found iff absent |
| LocalFs.LocalFsProvider.Delete | server/src/storage/local_fs.rs:229-240 | removes the block, also an absent one, unless the call fails |
| LocalFs.LocalFsProvider.Exists | server/src/storage/local_fs.rs:242-251 | answers whether the block is present unless the call fails |
| BlockProofs.StepKeepsInv | server/src/storage/local_fs.rs:150-251 | the refinement invariant (who may write which inode, who has which temporary name, what has taken effect) is kept by every system call of every operation |
| BlockTheorems.AtomicMap | server/src/storage/local_fs.rs:150-251 | in every run the visible blocks are the map built by one legal sequence of operations, in which each successful operation occurs once, after it was called, with its own answer |
| BlockTheorems.GetReturnsOneWholePut | server/src/storage/local_fs.rs:217-227 | what a get returns is the whole payload of one put that succeeded, not overwritten before the get took effect |
| BlockTheorems.FailureHasNoEffect | server/src/storage/local_fs.rs:150-205 | a put or delete that failed or stopped early has no entry in the sequence |
| BlockProgress.FailureIsProvoked | server/src/storage/local_fs.rs:150-251 | in every run an operation reports failure, or gives up its temporary file, only after one of its own calls failed |
| BlockProgress.CanFinish | server/src/storage/local_fs.rs:150-251 | an operation that has neither failed nor stopped can finish by its own steps alone, whatever others have left behind, and then reports success |
| BlockProgress.PutCanFinish | server/src/storage/local_fs.rs:150-205 | from every reachable state, a put under way can finish by its own steps alone, none failing, with its whole payload visible |
| BlockTheorems.SettledNeverChanges | server/src/storage/local_fs.rs:150-227 | an inode that a block path names or a get has open is never written again |
| BlockTheorems.RealTimeOrder | server/src/storage/local_fs.rs:150-251 | an operation that returned before another was called takes effect before it |
| BlockTheorems.Provenance | server/src/storage/local_fs.rs:150-205 | a value of the map stems from the last put that no later put or delete replaced |
| BlockTheorems.NeverStuck | server/src/storage/local_fs.rs:150-251 | an unfinished operation can always take its next step, whatever others did |
| BlockTheorems.VisibleWasPut | server/src/storage/local_fs.rs:150-205 | every visible block is the payload of a put that was called in the run and succeeded |
| BlockSizes.HandledIff | server/src/routes/api/blocks.rs:169-206 | the puts some PUT request leads to are those whose payload has exactly the configured size |
| BlockSizes.EveryBlockHasTheSize | server/src/routes/api/blocks.rs:177-206 | over any run whose puts come from requests, from a store without blocks, every visible block has exactly the configured size |
| BlockRoutes.AdmitIff | server/src/routes/api/blocks.rs:177-206 | a PUT is admitted iff its body has the configured size, no other size was declared and the size is below the largest `u64` |
| BlockRoutes.HandleBlock | server/src/routes/api/blocks.rs:99-249 | for each verb and each way calls can fail, the one response and what it says about the block map before and after; malformed paths and other verbs answer 404 and change nothing |
| BlockRoutes.UndisturbedRequests | server/src/routes/api/blocks.rs:99-249 | without a failing call nothing is answered 503: an admitted PUT is readable at once, a GET returns what is there, a DELETE leaves nothing |
| BlockRoutes.HandlePut | server/src/routes/api/blocks.rs:169-221 | 400 leaves the files alone; an admitted payload is stored and answered 204 iff no call fails and the temporary name is free, and otherwise answered 503 with no block changed |
| BlockRoutes.AnswersKeepSizes | server/src/routes/api/blocks.rs:99-249 | every request keeps all blocks at the configured size, and a 200 carries that many bytes |
| BlockRoutes.EncodedSpellingsAreMalformed | server/src/routes/api/blocks.rs:95-122 | a percent sign in the identifier part makes the path unaddressable |

## Left out

- SHA-256, signature verification, URL parsing, HTTP fetching, TLS, JSON and TOML decoding: parameters, nondeterministic results or already decoded records.
- Timing side channels: the constant-time comparisons are modelled as equality.
- Durability across power loss, file modes and directory permissions: only the visibility of names and contents is modelled, and stopping between system calls.
- Scheduling, notify wake-ups, lock fairness and liveness: a wait may end at any time, and only the check after it matters.
- The distinction between wall clock and monotonic clock in proof validation: one clock drives both.
- A heap poisoned or a lock panicking: the mutexes never fail. The binary heap is a multiset from which any element with the least deadline may be popped.
- Inode numbers are never reused, and nothing outside the server touches the storage root.
- The start-up probe of the storage root: only its file names are modelled, and shown to be no block's.
- The machines of the replay store and of the refresh protocol are values, not objects: what one thread does between two atomic steps is one event, and the memory orderings of the atomics are taken to be sequentially consistent.
- A scheduled refresh is one pass of the task's loop; passes of one context may overlap, which the task does not do, so results about runs cover more runs than there are.
- ParseJwks: the discovery document and the choice of the key-set address are not modelled.
- Guard: both guards share one model, with the set of verbs and the context as parameters; the request extensions are the subject the guard forwards.
- HandlePut: the cast of the body limit to `usize` on targets narrower than 64 bits is not modelled.
- Response header bytes, logging, metrics, the health and whoami handlers, proxy-address resolution, configuration other than `[auth]`, graceful shutdown: no property that spans operations.
