# Verified model of the 1bit2qbit message system

A Dafny 4.11 model of a secure messenger: a relay server that stages messages,
anchors them in Merkle batches on an Ethereum contract and delivers them over
WebSockets; a web page that checks a message against the chain; and a C++ client
with its own framing, local store and crypto subprocess. The theorems are about
whole runs and whole pipelines.

Run `dafny verify dfyconfig.toml` to check everything.

## What is proved

**Anchoring (`Words`, `Numbers`, `Merkle`, `ServerTree`, `WebTree`, `Contract`, `Anchoring`, `Utf8`).**
keccak256 is an arbitrary function from byte strings to 32 bytes, passed as a
parameter. Every such function has collisions, so "or a collision exists" would be
an empty claim. Soundness results therefore name the finite set of strings that
were hashed and place the colliding pair inside it. Proved: one root commits to one
set of messages across batches of any size and depth; an arbitrary proof that folds
to a root belongs to a batched message; the Python builder on bytes and the
TypeScript builder on hex strings agree layer by layer; every leaf gets a proof that
the page accepts; the page's verdict on any chain state, honest or not, is about the
first batch that logged the leaf; and on chains written only by the server, "valid" means
exactly "recorded". Leaves and children are ordered upwards as 256-bit numbers. Contract
storage after any run is what the accepted calls say and the log matches it, and a chunked
submission succeeds exactly when the owner sends it and every chunk goes through.

**The relay as a step system (`Mids`, `Staging`, `Admission`, `Finality`, `Provenance`, `Reuse`).**
Handlers run on the event loop and the batcher runs in a thread, so a batch read can
fall between a handler's clock reading and its commit. `Config.lag` bounds that gap.
Anchored content is final in every run if and only if the lag is at most one tick (or
no edit is ever accepted); the failing run is given. Whatever the lag: everything the
page accepts was sent by the session its mid names, and some run stages a mid n times if
and only if n - 1 gaps of window + grace + 1 - lag fit into window + grace + skew. So
once-only staging holds exactly when the skew grace and the lag are both zero. Every reply
of the handler has its exact reason, every recipient is a registered user, and a batch
without failures takes out exactly the closed rows, however many transactions it needs.

**Delivery (`Delivery`, `Relay`, `Endpoint`, `Order`, `FrameOrder`).** No accepted frame is
lost, held twice or misrouted, over every interleaving of direct sends, failures, drains,
disconnects and sweeps; a finished drain has delivered the whole backlog; a refused frame
changes nothing. A sender's frames reach a recipient in the order of acceptance when, at
each direct acceptance, none of them is still queued or being drained; that condition is
exact for the direct send, and a run without it is given in which the second frame
overtakes the first. The endpoint greets after registering but before the block that
unregisters: in every run all sessions have a live endpoint if and only if no greeting
raised, and a user whose greeting raised stays registered, is refused from then on and has
its queue expire.

**Limiter and pre-keys (`RateLimit`, `Limits`, `SharedWindows`, `PreKeys`).** The pruned and
swept deques answer every call like a ledger that never forgets, for one window per key;
the hits the limiter admits never exceed a limit per window, its retry hint is right to
within a second, and stale keys do not stay stored. A key request is answered with the
target's last published bundle, and with a pre-key exactly while one is left.
The server shares one limiter between registration and websocket authentication, which
use the caller's address with different windows. For any two such sites, every run
answers like the ledger if and only if the two windows are equal; for any unequal windows
and any limits a run is given in which one registration makes the limiter forget a full
quota of failed logins.

**Client (`WebSocket`, `Decoder`, `Refusals`, `Lines`, `Threads`, `ClientCache`, `ClientRuns`).**
The frame decoder returns a message if and only if the stream starts with a legal frame
list for it, and every other stream has its exact reason for being refused;
frames written by the encoder are recovered by a receiver written from RFC 6455;
line framing does not depend on chunking; `on_disconnect` fires exactly once for a
connection that ends by itself, and SSL is freed only when both threads are gone; memory and SQLite stay equal
over every run in which stored mids are new, remote changes name mids of the sender's own
conversation, and clocks do not run backwards: always the same messages in time order, and
in the same order too unless a conversation has equal timestamps. Two runs show what a
foreign and a repeated mid break; remote changes and start-ups have exact conditions.

## Modelling notes

- Time is one integer clock whose tick is the unit of a mid's timestamp; the limiter's float seconds are `real`, so rounding is not modelled.
- Signing, gas and RPC are a `Fate`: a transaction is mined, dropped, or mined without the caller learning of it.
- Database queries that may return rows in several orders are step parameters constrained by what the query promises.
- `ORDER BY timestamp_ms` leaves the order of equal timestamps to the database: `Load` returns any permitted order, and a start-up step carries the order it got.
- `log`, `accepted`, `transfers`, `ledger`, `grants` and similar fields are history: no operation reads them.
- `GetProof` asks for layers that halve down to one node only when the leaf is present, which `BuildTree` ensures; an absent leaf is refused on every tree, the single empty layer included.
- `FinalityExactly`, `StagedExactly` and `OnceExactly` ask that one leaf is not the zero hash, because the contract refuses a zero root and nothing would then leave staging.
- The decoder ignores the RSV bits and accepts lengths longer than needed; section 5.2 of RFC 6455 has a receiver fail on RSV bits. The model follows the code.
- `server/backend/database/models.py:58-61` says a row may be taken once its edit deadline passes; the batcher also waits for the grace period, and the model follows the batcher.
- `client/src/messaging/Message.h:6` says the client's ten-minute edit window matches the server's; `server/config.toml` sets two minutes. The window is a parameter here.

## Model

| member | source | states |
|---|---|---|
| Words.SortUnique | server/backend/blockchain/batcher.py:36 | Any two sorted arrangements of the same leaves are equal, so the library sort is fully determined |
| Words.SortMap | server/web-app/src/verifier.ts:27 | Sorting commutes with any order-preserving renaming of the elements |
| Merkle.PaddedNextLayer | server/backend/blockchain/batcher.py:39-42 | Appending the last node of an odd layer before pairing gives the same next layer as pairing that node with itself |
| Merkle.Layers | server/backend/blockchain/batcher.py:32-45 | Layers are chained by the pair hash from the given leaves up to a single node |
| Merkle.ProofCompletes | server/web-app/src/verifier.ts:45-69 | For every non-empty layer and position, folding the recorded siblings with any commuting pair hash gives the root |
| Merkle.LayersMap | server/web-app/src/verifier.ts:26-43 | A renaming that carries one pair hash to another carries every layer and the root |
| Merkle.DuplicatedLastLeafKeepsRoot | server/backend/blockchain/batcher.py:40-41 | Repeating the last of an odd number of leaves keeps the root, so roots bind sets and not lists |
| Words.LexIsFirstDifference | server/web-app/src/verifier.ts:22-27 | The order used by both builders is decided by the smaller element at the first difference, and a prefix comes first |
| Numbers.LexIsNumeric | server/backend/blockchain/batcher.py:26-36 | On byte strings of one length that order is the order of big-endian numbers |
| ServerTree.PairInputAscends | server/backend/blockchain/batcher.py:25-29 | The two children are hashed smaller number first |
| ServerTree.SortAscends | server/backend/blockchain/batcher.py:36 | Sorted leaves ascend as numbers, and are the given ones |
| ServerTree.PairInputDetermines | server/backend/blockchain/batcher.py:25-29 | The 64 hashed bytes determine the unordered pair of children |
| ServerTree.PairCommutes | server/backend/blockchain/batcher.py:25-29 | The pair hash ignores which side a sibling is on |
| ServerTree.BuildTree | server/backend/blockchain/batcher.py:32-45 | The loop returns exactly the layers over the leaves, ascending as 256-bit numbers, and fails exactly on no leaves |
| ServerTree.RootIgnoresOrder | server/backend/blockchain/batcher.py:36-49 | The root depends only on the multiset of leaves |
| ServerTree.TreeOfHash | server/backend/blockchain/batcher.py:36-49 | The layered root is the hash of the unfolded tree whose inputs are counted for collisions |
| ServerTree.EqualHashSameLeaves | server/backend/blockchain/batcher.py:16-29 | Trees of equal hash and any depths have the same leaves, or two of their hashed inputs collide (node with node, or 64-byte node with 32-byte leaf) |
| ServerTree.RootBindsMessages | server/backend/blockchain/batcher.py:16-49 | Batches with equal roots hold the same set of messages, or two strings hashed while building them collide |
| ServerTree.AcceptedMessageWasBatched | server/web-app/src/verifier.ts:63-69 | Any proof of any length that folds a message's leaf to a batch root means the message is in the batch, or a named collision |
| WebTree.PairAscends | server/web-app/src/verifier.ts:21-24 | The page hashes the string that is smaller by code unit at the first difference first |
| WebTree.SortAscends | server/web-app/src/verifier.ts:27 | The page's strings ascend by code unit at the first difference, and are the given ones |
| WebTree.GetBytesToHex | server/web-app/src/verifier.ts:15-24 | Hex printing and parsing of a digest are inverse |
| WebTree.HexKeepsOrder | server/web-app/src/verifier.ts:21-28 | Comparing lower-case hex strings by code unit is comparing the bytes |
| WebTree.LeavesAgree | server/web-app/src/verifier.ts:15-19 | The page's leaf is the hex of the server's leaf |
| WebTree.PairsAgree | server/web-app/src/verifier.ts:21-24 | The page's pair hash is the hex of the server's pair hash |
| WebTree.BuildersAgree | server/web-app/src/verifier.ts:26-43 | For every leaf list the page's sorted leaves, all layers and root are the hex image of the server's |
| WebTree.BuildTree | server/web-app/src/verifier.ts:26-43 | The nested loops return exactly the layers over the strings, ascending by code unit, and one empty layer for no leaves |
| WebTree.GetProof | server/web-app/src/verifier.ts:45-61 | Fails exactly when the leaf is absent; otherwise the siblings along the path of its first occurrence |
| WebTree.VerifyProof | server/web-app/src/verifier.ts:63-69 | True exactly when folding the proof from the leaf gives the root |
| WebTree.PageProofCompletes | server/web-app/src/verifier.ts:45-69 | For every batch and leaf the page's proof has depth - 1 siblings and folds to the root |
| Contract.MessageIntegrity.RecordBatch | blockchain/contracts/MessageIntegrity.sol:104-120 | Each revert in order with no effect; otherwise the batch is appended and one event per leaf follows the batch event |
| Contract.MessageIntegrity.TransferOwnership | blockchain/contracts/MessageIntegrity.sol:127-132 | Only the owner, never to the zero address; the event names both owners |
| Contract.MessageIntegrity.GetBatch | blockchain/contracts/MessageIntegrity.sol:138-146 | The stored batch, or the range error |
| Contract.RecordBatchLeaves | blockchain/contracts/MessageIntegrity.sol:112-119 | Afterwards the log holds exactly the submitted leaves for the new index, in order, and every older batch's leaves are unchanged |
| Contract.RunsAppend | blockchain/contracts/MessageIntegrity.sol:7-10 | Over every sequence of calls by anyone, batches and events only grow, recorded batches keep their leaves, and every batch has 1 to 4000 leaves and a non-zero root |
| Contract.OnlyOwnerWrites | blockchain/contracts/MessageIntegrity.sol:85-88 | Any sequence of calls by others than the owner leaves the contract untouched |
| Contract.OutcomeExactly | blockchain/contracts/MessageIntegrity.sol:85-131 | Each revert has exactly its reason; a call goes through exactly when the owner sends it with 1 to 4000 leaves and a non-zero root, or with a non-zero new owner |
| Contract.StorageIsTheAcceptedCalls | blockchain/contracts/MessageIntegrity.sol:104-132 | After any run the stored batches are the roots and times of the calls that went through, in order, and the owner is the last one named |
| Contract.TransfersAreLogged | blockchain/contracts/MessageIntegrity.sol:127-132 | After any run the logged hand-overs are those of the calls that went through, each from the owner before it |
| Contract.RunsKeepLog | blockchain/contracts/MessageIntegrity.sol:112-119 | Over every run the log names every batch with its stored root and time, in order, and every leaf with its position in its batch |
| Contract.FirstBatchMeaning | server/web-app/src/verifier.ts:91-102 | The first logged batch of a leaf exists exactly when the leaf was recorded, and holds the leaf |
| Contract.FirstBatchIsFirst | server/web-app/src/verifier.ts:91-102 | The batch found is that of the very first event that logged the leaf, and none is found exactly when no event did |
| Anchoring.SubmitBatch | server/backend/blockchain/batcher.py:52-138 | Refuses empty and oversized batches; records the sorted leaves under their root; reports success only for a confirmed batch, with its index |
| Anchoring.AddToBlockchain | server/backend/blockchain/batcher.py:141-148 | Submits chunks of 4000 in order and stops at the first failure; success means one confirmed batch per chunk, the k-th at the k-th index after those already there |
| Anchoring.SubmitKeepsHistory | server/backend/blockchain/batcher.py:100-138 | A submission, confirmed or not, appends its own consistent batch or nothing |
| Anchoring.SubmitAllKeepsHistory | server/backend/blockchain/batcher.py:141-148 | A whole chunked call puts only the given messages on the chain, and all of them when it succeeds, however part-way failures fall |
| Anchoring.SubmitAllExactly | server/backend/blockchain/batcher.py:141-148 | A call with any number of messages succeeds if and only if the owner sends it, every chunk's transaction is mined, and no chunk has the zero root |
| Anchoring.VerifyMessage | server/web-app/src/verifier.ts:71-137 | On any chain state: not found, missing batch, root mismatch, or valid, decided only by the first batch that logged the leaf being consistent; a found and consistent leaf is never refused |
| Anchoring.VerdictNamesFirstBatch | server/web-app/src/verifier.ts:97-132 | The verdict names the batch of the first event that logged the leaf, with that batch's root and timestamp; not found exactly when no event did |
| Anchoring.HonestChainAccepts | server/web-app/src/verifier.ts:89-122 | On a chain written by submissions the page accepts exactly the recorded leaves, and every message of every batch |
| Anchoring.HonestChainRejects | server/web-app/src/verifier.ts:89-122 | What it accepts was in the batch it names, or two strings hashed for that batch and message collide |
| Utf8.EncodeInjective | server/backend/blockchain/batcher.py:17 | Distinct texts have distinct UTF-8 bytes |
| Utf8.EncodesExactly | server/backend/blockchain/batcher.py:17 | The bytes of a character are exactly the well-formed string of RFC 3629, section 4, that stands for it |
| Mids.NewMidParses | client/src/client/Client.cpp:945-949 | The server parses a client-printed mid back to the same sender, recipient and timestamp |
| Mids.PrintParse | server/backend/handlers/messaging.py:22 | Every integer survives printing in decimal and Python's int() |
| Mids.ParseIntExactly | server/backend/handlers/messaging.py:22 | Python's int() accepts exactly spaces, an optional sign, digits with single underscores between them, and spaces, and gives their value |
| Mids.ParseMidExactly | server/backend/handlers/messaging.py:16-29 | A text parses exactly when it is three colon-free parts of which the last is a number within the calendar |
| Mids.PreimageUnambiguous | server/backend/daemons/batcher.py:27 | "mid:ciphertext" determines both parts although ciphertexts may contain colons |
| Staging.ValidateMid | server/backend/handlers/messaging.py:16-41 | Accepts exactly mids that parse, name the sender and recipient, and are stamped within the window; the deadline error exactly for well-named mids that are too old |
| Admission.NewFrameExactly | server/backend/handlers/messaging.py:110-137 | A frame with a new mid is accepted if and only if the mid names both users within the window and the recipient is registered; each error has its exact reason; the row stored is the frame's |
| Admission.EditExactly | server/backend/handlers/messaging.py:90-109 | A frame with a staged mid changes that row's text if and only if sender and recipient match and the row is open; each error has its exact reason |
| Admission.RecipientsAreRegistered | server/backend/handlers/messaging.py:114-124 | In every run, every accepted frame and every row ever staged is for a registered user |
| Admission.UsersAreThoseAdded | server/backend/routes/auth.py:29-45 | After any run the registered users are those at the start and those added since |
| Admission.WholeBatchTakesTheClosed | server/backend/daemons/batcher.py:13-39 | From every reachable state, a batch without failures anchors and removes exactly the rows that were closed, in as many transactions as it takes |
| Relay.Database.HandleSendMessage | server/backend/handlers/messaging.py:72-166 | Staging change and reply as the step system uses them; a refusal changes nothing; an accepted frame is queued with its expiry exactly when its recipient has no session, else the session's socket is returned |
| Staging.NextKeepsInv | server/backend/daemons/batcher.py:13-39 | Every step keeps: unique mids and ids, rows under a batch stay in the table and closed, sent chunks are on the chain, chain consistent with history |
| Staging.RunKeepsInv | server/backend/daemons/batcher.py:13-39 | The same over every valid run of any length |
| Staging.SendLeavesSnapAlone | server/backend/handlers/messaging.py:100-109 | No update of a row the batcher has read is accepted, under the exact condition |
| Staging.RunKeepsFinal | server/backend/daemons/batcher.py:20-37 | In every run a row gone from the table is on the chain with the last text accepted for it; failed and aborted batches remove nothing |
| Finality.RaceBreaksFinality | server/backend/handlers/messaging.py:73-109 | With a commit two or more ticks after the clock reading, a concrete run anchors the old text after accepting the new |
| Finality.FinalityExactly | server/backend/daemons/batcher.py:14-37 | Finality over all runs holds if and only if the lag is at most one tick or rows accept no edits |
| Provenance.RunKeepsAuthors | server/backend/handlers/messaging.py:90-137 | In every run every accepted frame names its session user and recipient, and every staged row and anchored message came from one |
| Provenance.RowsNameTheirSender | server/backend/handlers/messaging.py:16-29 | Every row ever staged has a mid naming its sender and recipient, and its text came from a session of that sender |
| Provenance.AcceptedByPageWasSent | server/web-app/src/verifier.ts:89-122 | In every run, a text the page calls valid was sent by the authenticated user its mid names, or two named strings collide |
| Provenance.AcceptedTextSplitsRight | server/backend/daemons/batcher.py:27 | A reader who splits a valid text at a mid that parses gets the mid and ciphertext of a frame accepted from the user the mid names, for the recipient it names, or two named strings collide |
| Provenance.RemovedRowsVerify | server/backend/daemons/batcher.py:32-37 | In every run, the last accepted text of every row removed from staging is valid on the page |
| Reuse.InsertionsBounded | server/backend/handlers/messaging.py:31-39 | n insertions of one mid fit only if n - 1 gaps of window + grace + 1 - lag fit into window + grace + skew; every re-acceptance is within the skew of the first row's deadline plus grace |
| Reuse.AtMostTwice | server/backend/handlers/messaging.py:31-39 | At most two insertions when two gaps exceed window + grace + skew, and one if the stamp lay at least the lag behind its first acceptance |
| Reuse.StagedExactly | server/backend/handlers/messaging.py:31-39 | For every configuration and n, some run stages some mid n times if and only if n - 1 gaps fit into the acceptance window |
| Reuse.OnceExactly | server/backend/handlers/messaging.py:38-39 | Every mid is staged at most once in all runs if and only if skew grace and lag are both zero |
| Relay.SessionRegistry.Register | server/backend/session.py:8-13 | Registers exactly when the user has no session, and leaves an existing session alone |
| Relay.SessionRegistry.Unregister | server/backend/session.py:15-16 | Removes that user only, and nothing if absent |
| Relay.Database.RunCleanup | server/backend/daemons/ttl_cleanup.py:12-23 | Deletes exactly the rows whose expiry is before now and returns their number |
| Staging.DeleteKeepsFinal | server/backend/daemons/batcher.py:33-37 | Deleting by id removes no row whose last accepted text is not on the chain |
| Delivery.LeavingTheQueue | server/backend/handlers/messaging.py:182-189 | A row leaves the queue only after its own frame was sent on a socket of its recipient, or strictly after acceptance time plus time to live |
| Delivery.SweepExactly | server/backend/daemons/ttl_cleanup.py:12-23 | A sweep removes exactly the queued frames accepted more than the time to live before now, and counts them as expired |
| Delivery.RunConserves | server/backend/handlers/messaging.py:44-69 | In every run each accepted frame is sent, in flight, queued or expired; never held twice; and no socket carries another user's frame |
| Delivery.FinishedDrainDeliveredBacklog | server/backend/handlers/messaging.py:169-189 | Under any interleaving, a drain that has gone through its list has sent on its socket, and removed, every row its user had queued when it began |
| Order.NextKeepsOrder | server/backend/handlers/messaging.py:139-189 | Every step keeps: nothing sent is newer than anything of its sender and recipient still queued, in flight or being drained, given the conditions on acceptances |
| Order.DirectSendExactly | server/backend/handlers/messaging.py:139-166 | A frame sent directly keeps that order if and only if nothing of its pair was queued or being drained when it was accepted |
| FrameOrder.FramesLeaveInOrder | server/backend/handlers/messaging.py:139-189 | In every run of endpoints under that condition and rising acceptance times, a sender's frames for a recipient go out in the order of acceptance |
| FrameOrder.FramesCanOvertake | server/backend/handlers/messaging.py:163-183 | Without it, for any two users, a run sends the second frame before the first |
| Endpoint.RunKeepsInv | server/backend/routes/ws.py:74-125 | In every run each connection that has not left is its user's session and conversely, and each direct send is awaited by the endpoint of its sender |
| Endpoint.OneFlightPerSender | server/backend/routes/ws.py:91-120 | No user has two direct sends under way |
| Endpoint.ServingHasDrained | server/backend/routes/ws.py:89-92 | In every run an endpoint that takes frames has first sent and removed everything its drain found queued for its user |
| Endpoint.SessionsLiveExactly | server/backend/routes/ws.py:75-125 | In every run all registered users have an endpoint that will unregister if and only if no greeting raised |
| Endpoint.AbandonedForever | server/backend/routes/ws.py:75-79 | After a greeting raised its user stays registered in every continuation, and every further connection changes nothing |
| Endpoint.AbandonedIsStranded | server/backend/routes/ws.py:75-90 | What is queued for that user stays queued as it is or expires, in every continuation |
| Relay.RejectedFrameChangesNothing | server/backend/handlers/messaging.py:139-161 | A refused frame leaves both queues, the chain and all sessions as they were |
| Relay.AcceptedFramesAreNeverLost | server/backend/handlers/messaging.py:139-190 | In every run of the whole relay each frame the handler accepted is accounted for with sender, text and mid intact |
| Relay.OnlyAcceptedFramesAreSent | server/backend/handlers/messaging.py:163-189 | In every run each transfer is an accepted frame, on a socket that belongs to the recipient its sender named and to nobody else |
| RateLimit.RateLimiter.Sweep | server/backend/rate_limit.py:40-46 | Evicts exactly the keys whose newest hit is stale and counts them; raises exactly when a stored deque is empty |
| RateLimit.RateLimiter.Prune | server/backend/rate_limit.py:53-64 | Drops the expired front of one deque and removes it when emptied |
| RateLimit.RateLimiter.Hit | server/backend/rate_limit.py:66-79 | The whole new state and answer, sweep on every 500th call included |
| RateLimit.RateLimiter.IsBlocked | server/backend/rate_limit.py:81-90 | The answer without recording, pruning included |
| Limits.LimiterRefinesLedger | server/backend/rate_limit.py:40-90 | Over every call sequence with one window per key and positive limits, all answers equal those of the full history |
| Limits.DequesAreSuffixes | server/backend/rate_limit.py:53-79 | With any mix of windows every stored deque is a non-empty sorted suffix of the admitted hits |
| SharedWindows.TwoWindowsForget | server/backend/routes/auth.py:19 | For any two sites on one key with a short and a longer window and any limits: after a full quota of long-window hits one short-window hit makes the next long-window check differ from the ledger, and with a limit above one let through what the ledger refuses |
| SharedWindows.SharingIsSafeExactly | server/backend/routes/ws.py:31-49 | Every run of the two sites, on any keys, answers like the full history if and only if their windows are equal |
| Limits.HitRaisesExactly | server/backend/rate_limit.py:74-77 | A hit raises exactly for a non-positive limit with nothing live, and exactly then leaves an empty deque |
| Limits.LetThroughExactly | server/backend/rate_limit.py:66-90 | In every run of a fresh limiter a hit or check is let through if and only if fewer than the limit of hits admitted for its key lie in the window that ends now |
| Limits.NeverOverLimit | server/backend/rate_limit.py:66-79 | In every run of a fresh limiter no interval of window length holds more than the limit of the hits it admitted for a key |
| Limits.RetryHintWorks | server/backend/rate_limit.py:76-77 | In every run of a fresh limiter a refusal says 1 to window + 1 seconds, and a hit on the key that much later is admitted if none was admitted meanwhile |
| Limits.StillRefused | server/backend/rate_limit.py:76-77 | In every run a hit on the key more than a second before the time the hint names is still refused |
| Limits.StaleKeysAreEvicted | server/backend/rate_limit.py:40-72 | After 500 further hits on whatever other keys, a key whose newest hit is older than the longest window is no longer stored |
| PreKeys.RequestKeysDiffer | server/backend/handlers/key_bundle.py:61 | No two requester and target pairs share a limiter key |
| PreKeys.KeyDirectory.HandlePublish | server/backend/handlers/key_bundle.py:20-50 | The bundle is inserted or overwritten and every key becomes one pool row of the publisher |
| PreKeys.KeyDirectory.HandleRequest | server/backend/handlers/key_bundle.py:58-134 | The limiter decides first; then no bundle, a bundle without key, or a bundle with one row popped from the target's pool |
| PreKeys.AnsweredExactly | server/backend/handlers/key_bundle.py:65-112 | Each reply has its exact reason; an admitted request gets the stored bundle, and a key of the target exactly when the pool holds one, which then loses that row |
| PreKeys.PublishAddsKeys | server/backend/handlers/key_bundle.py:41-48 | Publishing adds each given key to the publisher's rows as often as it is given, and nothing to anyone else's |
| PreKeys.BundlesAreLastPublished | server/backend/handlers/key_bundle.py:23-39 | After any run the directory holds the last bundle each user published, and none for users that never did |
| PreKeys.RequestsGetWhatWasPublished | server/backend/handlers/key_bundle.py:58-134 | After any run an admitted request gets no bundle exactly if the target never published, else its last bundle, with a key exactly if one was published more often than served |
| PreKeys.PreKeysConservedAndRationed | server/backend/handlers/key_bundle.py:20-112 | In every run keys published equal keys pooled plus keys served, pooled keys imply a bundle, and one requester gets at most the limit of one target's keys per window |
| WebSocket.EncodeFrame | client/src/connection/Connection.cpp:251-283 | FIN and opcode, minimal length form with mask bit, key, then the payload with each bit flipped exactly where byte i % 4 of the key has a one |
| WebSocket.MaskedBits | client/src/connection/Connection.cpp:279-280 | A bit of the masked byte i is one exactly when payload byte i and key byte i % 4 differ in it |
| WebSocket.MinimalIsLeast | client/src/connection/Connection.cpp:260-270 | No form that fits writes the length in fewer bytes than the one chosen |
| WebSocket.EncodedFrameIsReceived | client/src/connection/Connection.cpp:251-283 | A receiver written from RFC 6455, with an unmasking of its own, recovers opcode and payload and stops at the next frame, for every payload, key and following bytes |
| WebSocket.FramesSplitBack | client/src/connection/Connection.cpp:287-290 | Frames written back to back are split back into the same list |
| Decoder.DecodeFrame | client/src/connection/Connection.cpp:300-366 | The loop's outcome on every stream, with each refusal in order and the pongs sent |
| Decoder.DecodesPrinted | client/src/connection/Connection.cpp:300-366 | Any fragmentation with any interleaved pings and pongs within the limits yields the concatenated fragments, consumes exactly those frames and pongs each ping in order |
| Decoder.DecodesExactly | client/src/connection/Connection.cpp:300-366 | A message is returned if and only if the stream starts with a legal frame list for it; so no masked frame, bad control frame or broken fragment order is ever accepted |
| Refusals.FailsExactly | client/src/connection/Connection.cpp:300-366 | It fails with a reason and pongs if and only if the stream is legal unfinished frames with those pings followed by something that gives that reason |
| Decoder.MessagesAreBounded | client/src/connection/Connection.cpp:321-360 | No stream yields a message over 16384 bytes |
| Lines.LineReader.ReadLine | client/src/crypto/CryptoProxy.cpp:287-318 | However the pipe cuts or interrupts the bytes, the line returned and the bytes left are those of the uncut stream, end of file and read errors included |
| Lines.LineReader.ReadLines | client/src/crypto/CryptoProxy.cpp:287-324 | n calls in a row over a chunked pipe return what n reads of the uncut stream would, and leave the same bytes |
| Lines.LineReader.ReadResponses | client/src/crypto/CryptoProxy.cpp:322-324 | With one newline-free response per request, however chunked, the k-th call returns the k-th response and later bytes stay for later calls |
| Lines.CallsGetTheirResponses | client/src/crypto/CryptoProxy.cpp:322-324 | The same of the uncut stream, broken or not |
| Lines.EveryStreamIsRead | client/src/crypto/CryptoProxy.cpp:287-318 | Reading any stream on and on returns its lines, then a last piece once if the pipe ended, and then the error for a broken or closed pipe for ever |
| Threads.ConnectedOnlyWhileRunning | client/src/connection/Connection.cpp:76-110 | In every reachable state between calls, connected implies running: no drop or disconnect leaves it set |
| Threads.ThreadsAreSafe | client/src/connection/Connection.cpp:66-108 | Over every interleaving: at most one notification per connect, none after the caller stopped it, and live threads have their SSL object |
| Threads.SslFreedAlone | client/src/connection/Connection.cpp:96-107 | In every reachable state the SSL object is freed only with both threads gone |
| Threads.NotifiedOnceAndOnlyOnDrop | client/src/connection/Connection.cpp:397-411 | In every reachable state a notification is the first since connect and was not preceded by a disconnect that stopped the connection |
| Threads.EveryDropIsNotified | client/src/connection/Connection.cpp:397-411 | In every reachable state a connection that has ended was reported once if it ended by itself, and not if the caller ended it |
| Threads.DisconnectLeavesNothing | client/src/connection/Connection.cpp:82-108 | When disconnect returns, in every run, flags, socket, SSL object and both threads are gone |
| Threads.DisconnectReturns | client/src/connection/Connection.cpp:82-108 | However caller and threads are scheduled, a disconnect under way always has a step to take and has returned within ten steps: no deadlock, no livelock |
| Threads.FailedPingClosesSocket | client/src/connection/Connection.cpp:385-393 | In every reachable state a pinger that gave up on a running connection has closed the socket |
| ClientCache.Conversation.Update | client/src/messaging/Conversation.cpp:10-32 | Exactly the first matching message is changed |
| ClientCache.MessageStore.SaveMessage | client/src/messaging/MessageStore.cpp:134-160 | Appends a row under a fresh id and returns the id |
| ClientCache.UpdateRowsShows | client/src/messaging/MessageStore.cpp:168-192 | A SQL update of all matching rows shows in each conversation as that change to all its matching messages and nothing else |
| ClientCache.MessageStore.Load | client/src/messaging/MessageStore.cpp:194-224 | All of the peer's rows, decrypted, in time order, equal timestamps in any order; nothing exactly when there is no row |
| ClientCache.ChangesOnDisk | client/src/messaging/MessageStore.cpp:168-192 | On disk a local change alters the row with its id, a remote one every row with its mid: text and flag only, and no other row |
| ClientCache.ChangesInMemory | client/src/messaging/Conversation.cpp:10-32 | In memory the first match of each conversation, or of the sender's only, is altered in the same way, and nothing else |
| ClientCache.AddShows | client/src/client/Client.cpp:732-746 | A message sent or received comes last on disk and in memory, with its text and a new id |
| ClientCache.RemoteChangeExactly | client/src/client/Client.cpp:717-730 | A remote edit or deletion keeps disk and memory equal if and only if no other conversation holds a row it would change and later duplicates already read so |
| ClientCache.RemoteByOwnerExactly | client/src/client/Client.cpp:717-730 | With unique mids it keeps them equal if and only if every row it would visibly change is of the sender's conversation |
| ClientCache.ForeignEditSplitsCopies | client/src/client/Client.cpp:717-722 | A peer that names the mid of another's conversation makes disk and memory differ |
| ClientCache.DuplicateMidSplitsCopies | client/src/messaging/MessageStore.cpp:175-180 | So does an edit of a mid stored twice in one conversation |
| ClientCache.LocalChangeAgrees | client/src/client/Client.cpp:376-422 | A local edit or deletion by id always keeps them equal |
| ClientRuns.ReloadRestoresExactly | client/src/client/Client.cpp:589-607 | Loading history gives memory equal to disk if and only if every conversation's rows are in time order and equal timestamps came back in row order |
| ClientRuns.EveryReloadRestoresExactly | client/src/messaging/MessageStore.cpp:194-199 | It does so for every order the query may return if and only if the timestamps of every conversation strictly increase |
| ClientRuns.CopiesHoldTheSame | client/src/client/Client.cpp:717-746 | Any mix of sends, receipts, local and remote changes and restarts, whatever the database does with ties, keeps mids unique and memory holding the messages on disk in time order, and equal to disk when timestamps strictly increase; given new mids, remote changes to the sender's own mids and clocks that do not run backwards |
| ClientRuns.CopiesStayEqual | client/src/client/Client.cpp:717-746 | With equal timestamps loaded in row order, both copies stay equal |

## Left out

- Double Ratchet, X3DH, AES-GCM and Argon2: library code; storage encryption is an ideal inverse pair.
- TLS, certificates, TCP, HTTP registration and the WebSocket handshake text: foreign calls.
- User interfaces, logging, deployment and configuration loading: no hard property.
- Clock representation: naive and aware datetimes and MySQL precision are one clock here; the float division by 1000 in `_validate_mid` is exact.
- Python's `int()` on non-ASCII digits and spaces, and case-insensitive database collation of mids: texts are compared exactly.
- Crashes between a commit and a socket send, and database errors in handlers: conservation is for runs without them.
- The order of frames from different senders, and what a client shows for frames out of order: only that each is sent, and the order of one sender's frames to one recipient.
- The frame validation counter, login and lockout delays: short branches.
- Writing to the subprocess pipe: a plain write-all loop.
- Client key agreement around a message (`start_session_and_send`, identity pinning): only the stored and cached messages are modelled.
- Threads.ThreadsAreSafe: assumes the caller's threading contract and the TLS configuration; a plain TCP connection has no SSL object to speak of.
- Anchoring.SubmitBatch: environment and key checks before the transaction are not modelled.
- PreKeys.KeyDirectory.HandleRequest: concurrent transactions on the pool are taken as already serialised by the row lock.
