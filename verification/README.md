# Verified model of the Lightning onion

A Dafny model of a Go implementation of the onion routing of BOLT #4 (Lightning
Network): the Sphinx packet a sender builds and routers peel, the error onion that
travels back, and the replay protection of a router. `dafny verify dfyconfig.toml`
checks everything.

## How it is modelled

- SHA-256, HMAC-SHA-256, ChaCha20 and secp256k1 are the function-valued fields of
  `Primitives.Suite`; every result holds for all suites. Where curve arithmetic
  matters, `Suite.GroupLaws` is assumed (scalar multiplication composes, scalars may
  be reduced modulo the group order, and only multiples of the order lead to
  infinity), and `Suite.WireLaws` where keys are serialised (curve points parse back,
  the point at infinity does not). `Primitives.GroupLawsAreConsistent` gives a suite
  that meets the laws.
- Bytes are `bv8`, so XOR cancellation is proved. `uint32` and `uint64` are bit
  vectors, `uint16` is a bounded integer.
- Buffers the source rewrites in place are arrays, `ReplaySet`, `Batch`,
  `MemoryReplayLog`, `Router`, `Tx` and `Circuit` are classes. Each method is proved
  against a function on values; the theorems are about those functions.
- The visiting order of a Go map is a nondeterministic choice.

| file | source | content |
|---|---|---|
| Bytes, Primitives | crypto.go | byte strings, primitives, derived keys |
| Secrets | sphinx.go, crypto.go | shared secrets, running product, key agreement |
| Packet | sphinx.go | HopData and OnionPacket codecs |
| Header, Construction | sphinx.go, path.go | filler, header layers, NewOnionPacket |
| Peel, Delivery | sphinx.go | unwrapping, hop-by-hop delivery, delivery over the wire |
| ErrorOnion | crypto.go | EncryptError, DecryptError, attribution |
| ReplayModel | batch.go, replaylog.go | batches and logs as values, batching against sequential insertion |
| ReplayRuns | sphinx.go, replaylog.go | router, log and transactions as a state machine; properties of all runs |
| ReplayHistory | sphinx.go, replaylog.go | what the log holds and what is answered, from the operations so far |
| ReplaySafety | sphinx.go, replaylog.go | when reusing batch IDs and restarting the log are safe |
| ReplayLog, Router | replay_set.go, batch.go, replaylog.go, sphinx.go | the mutable objects, refining that state machine |
| Sessions | sphinx.go | a router executing any commands is a run of that state machine |
| GuardedDelivery | sphinx.go | delivery through routers with replay logs |
| CircuitCodec | obfuscation.go | Circuit codec |

## Main results

- `Delivery.EndToEndDelivery`: a packet delivers every hop the payload the caller put
  into the path for it, and stops at the last hop, **if and only if** no scalar of the session vanishes modulo the group
  order and no intermediate MAC is all zeroes. The sender can check both while
  building. `Delivery.EarlyEnd` and `Delivery.ZeroSessionKeyRefused` say what happens
  otherwise, and `Delivery.WireDelivery` is the same theorem with every packet
  serialised and parsed between the hops.
- `Header.FillerInvariant` and `Peel.DecryptRegenerates`: the bytes the sender shifts
  out are the bytes a router's padding regenerates.
- `Secrets.KeyAgreement` and `Secrets.RunningProductRefinesNaive`: the sender's running
  product yields the keys and secrets the hops derive one blinding at a time.
- `ReplayModel.BatchRefinesSequential`: a batch behaves like one-by-one insertion on
  every log **if and only if** no slot is used for two different new prefixes.
- `GuardedDelivery.GuardedDelivers`: through routers that each consult their own log,
  the sending is delivered **if and only if**, in addition, every log is running and
  does not hold the hop's prefix. `GuardedDelivery.SecondSendingRefused`: whatever is
  sent again with the same ephemeral key is refused by the first hop.
- `ReplayRuns.AtMostOnce`, `ReplayRuns.IdempotentCommit`,
  `ReplayRuns.EphemeralKeyIsSpent`: safety over all runs, with every Commit that hands
  packets out counted, also one repeated on a committed transaction.
- Two uses break that safety, each with its exact condition.
  `ReplaySafety.ReuseIsSafeExactly`: a batch ID stored with packets p may be used again
  with packets q, in every run, **if and only if** p ended with the same packet in
  every slot that q fills and p did not flag itself.
  `ReplaySafety.RestartIsSafeExactly`: after a start of the log, acceptance is at most
  once in every run **if and only if** no transaction committed before hands out a
  packet any more. `DisagreementBreaks` and `RestartBreaks` give the failing runs, from
  a freshly started log without transactions.
- `Sessions.Serve`: a new router with a new log, given any list of commands, makes a run
  of the state machine with that run's answers, although its objects share replay sets
  by reference. So the results over runs hold of the objects;
  `Sessions.RoutedOnce` is one of them, stated on the answers.
- `Sessions.RoutedExactly`: whatever was commanded before, a packet is routed **if and
  only if** the router accepts it by itself, the log is running, and nothing with its
  prefix was routed or committed since the last start or the expiry of its entry.
  `Sessions.AddedExactly`, `Sessions.CommitAnswered` and `Sessions.HandedOutExactly`
  determine the answers of transactions in the same way. They rest on
  `ReplayHistory.LoggedExactly` (what the log holds, from the operations so far) and
  `ReplayHistory.CommitExactly` (what a Commit flags, from the packets offered).
- `Peel.UnwrapOverPrimitives`, `Peel.ReconstructOverPrimitives`,
  `ReplayHistory.InspectOverPrimitives`, `ErrorOnion.EncryptOverPrimitives`,
  `ErrorOnion.MatchOverPrimitives` and `ErrorOnion.OutcomeExactly` say what the
  operations compute from HMAC, SHA-256, the key stream and the curve alone, byte by
  byte; `Packet.HopDataLayout`, `Packet.DecodePacketExactly` and
  `CircuitCodec.EncodedLayout` fix the formats. From these follow
  `Peel.TamperingShows` and `ErrorOnion.ErrorTamperingShows`: what carries the MAC of
  something accepted is accepted **if and only if** the HMAC does not tell them apart.
- `ErrorOnion.DecryptError` and `ErrorOnion.ErrorAttribution`: the fixed-length loop
  with dummy secrets is a plain first-match search, and it names the failing hop **if
  and only if** no earlier layer's MAC verifies.
- `ErrorOnion.PanicsExactly`, `ErrorOnion.DummyFailurePanics`: on paths shorter than
  the maximum the loop does not always end in an answer. It reads past the end of the
  path **if and only if** no hop's layer verifies and a dummy layer does, and every
  such path has inputs of that kind, unless a hop's layer happens to verify.
  `ErrorOnion.DummyFailureInstance` gives primitives with which none does.
- `CircuitCodec.CircuitRoundTrip`: decoding restores an encoded circuit **if and only
  if** both lengths fit one byte and every key parses back.

## Model

| member | source | states |
|---|---|---|
| Secrets.GenerateSharedSecrets | sphinx.go:207-276 | the loop with its early break computes, for every hop, the secret of the running product |
| Secrets.RunningProductRefinesNaive | sphinx.go:225-262 | one multiplication by the reduced running product equals applying the session key and each blinding factor in turn, for every point |
| Secrets.SecretRefinesNaive | sphinx.go:225-262 | the sender's secrets and ephemeral keys are those of the derivation that multiplies by one factor at a time, each the hash of key and secret |
| Secrets.KeyAgreement | sphinx.go:241-273 | every hop, re-blinding with its own key only, receives the sender's ephemeral key and derives the sender's secret |
| Secrets.EphemeralOnCurve | crypto.go:127-138 | the key sent to hop i is on the curve exactly when no factor so far vanishes modulo the order |
| Packet.DecodeEncodedHopData | sphinx.go:147-203 | decoding undoes encoding and leaves the rest of the stream |
| Packet.EncodeDecodedHopData | sphinx.go:177-203 | a stream decodes exactly when 65 bytes are there, and is then the encoding of the result; a shorter one is ended if it stops between fields and cut off otherwise |
| Packet.HopDataLayout | sphinx.go:147-175 | the position of every field and the byte order of the two numbers |
| Packet.PacketLayout | sphinx.go:404-424 | the position of every part of an encoded packet |
| Packet.DecodePacketExactly | sphinx.go:430-463 | the answer for every stream: version before key before the rest, and the two end-of-stream errors according to where it stops |
| Packet.DecodeEncodedPacket | sphinx.go:404-463 | a packet survives the wire exactly when its version is 0 and its key parses back; other versions are refused |
| Header.XorInto | crypto.go:44-53 | the common prefix of both inputs is XORed, the rest of the destination kept, also when source and destination coincide |
| Header.RightShift | sphinx.go:366-374 | the content moves right, the end falls off, zeroes fill the gap |
| Header.GenerateHeaderPadding | sphinx.go:386-399 | the in-place loop computes the filler the hops generate |
| Header.FillerInvariant | sphinx.go:324-344 | the last j hop sizes of the header for hop j are the filler after j steps, for every hop |
| Construction.TrueRouteLength | path.go:59-72 | the number of hops before the first empty one |
| Construction.NodeKeys | path.go:43-52 | the keys of exactly those hops, in order |
| Construction.AddLayer | sphinx.go:324-338 | shift, copy and XOR in place make one encrypted layer |
| Construction.NewOnionPacket | sphinx.go:280-362 | the packet is the recursively defined one for hop 0, with version 0 and the session's public key, and the path is left with exactly the route's HMAC fields changed |
| Construction.PayloadIsCallers | sphinx.go:310-329 | what is encrypted for a hop is the caller's payload but for the HMAC: the next header's, or zeroes for the last hop |
| Construction.PacketDependsOnRouteOnly | sphinx.go:283-287 | HMAC fields in the path and anything after the first empty hop do not influence the packet |
| Construction.RebuildIsStable | sphinx.go:304-354 | building again from the path just filled in gives the same packet and the same path |
| Peel.UnwrapOverPrimitives | sphinx.go:630-684 | a packet is accepted exactly when its MAC is the HMAC of routing info and associated data under the "mu" key; it reveals routing info and zeroes XORed with the "rho" stream, and the re-blinded key |
| Peel.TamperingShows | sphinx.go:640-643 | a packet with the MAC of an accepted one is accepted exactly if the HMAC does not tell the messages apart |
| Peel.ReconstructOverPrimitives | sphinx.go:614-626 | off-curve keys are refused, the secret is the hash of the key times the router's, and 32 zero bytes mean exit |
| Peel.LastHopPadding | sphinx.go:291-344 | the last hop finds zeroes between its payload and the filler |
| Peel.LayerUndoesUnwrap | sphinx.go:630-684 | a packet is refused only for its MAC, and for any accepted packet layering what was unwrapped gives back its routing info |
| Peel.UnwrapInjective | sphinx.go:630-684 | under one secret, packets that unwrap alike have equal routing info and MAC |
| Peel.DecryptRegenerates | sphinx.go:649-675 | decrypting a layer with appended zeroes yields the payload followed by the whole inner header |
| Peel.HopUnwraps | sphinx.go:630-684 | a hop with the sender's secret passes the MAC check, recovers its payload and the next hop's packet |
| Delivery.ProcessHop | sphinx.go:689-723 | a hop refuses exactly an off-curve key, and otherwise reports its payload, the next packet, and exit exactly for a zero HMAC |
| Delivery.EndToEndDelivery | sphinx.go:280-362 | all hops get the caller's payloads and only the last is the exit, if and only if no scalar vanishes and no intermediate MAC is zero |
| Delivery.EarlyEnd | sphinx.go:689-723 | at the first zero MAC the journey ends one hop early, at a hop that reports exit, all payloads up to there intact; at the first vanished key it ends with a refusal |
| Delivery.ZeroSessionKeyRefused | crypto.go:127-138 | a session key that is a multiple of the group order is refused by the first hop |
| Delivery.WireTravelAgrees | sphinx.go:404-463 | serialising and parsing between hops changes no journey, of any packet with version 0 and a group element as key |
| Delivery.WireDelivery | sphinx.go:404-463 | the delivery theorem when only bytes pass between the hops |
| GuardedDelivery.GuardedDelivers | sphinx.go:579-607 | delivery through routers with their own logs, if and only if the conditions of plain delivery hold and every log is running and lacks the hop's prefix |
| GuardedDelivery.SecondSendingRefused | sphinx.go:600-606 | after a first hop accepted a packet, any packet with the same ephemeral key is refused there and no log changes; the same packet is refused as a replay |
| ErrorOnion.SearchSender | crypto.go:198-233 | the fixed number of iterations finds the first match among the path's secrets followed by dummies, with its message |
| ErrorOnion.DecryptError | crypto.go:175-242 | the fixed loop answers as a plain first-match search over the path does: wrong lengths are refused, and with no match on the path the answer is a failure, or a panic when the dummy secret matches past the end |
| ErrorOnion.OutcomeExactly | crypto.go:175-242 | for every input: refused unless 292 bytes; no answer exactly if none of 20 secrets, the path's and then ones, matches; sender and message of the first match on the path; a panic if it is past the end |
| ErrorOnion.EncryptOverPrimitives | crypto.go:255-265 | XOR with the "ammag" stream, the first encrypter putting the HMAC under the "um" key in front |
| ErrorOnion.MatchOverPrimitives | crypto.go:213-232 | a hop matches exactly when the first 32 bytes in the clear are the HMAC of the others under its "um" key, and those are its message |
| ErrorOnion.ErrorTamperingShows | crypto.go:222-229 | a blob leaving a hop the MAC of one that matches there matches exactly if the HMAC does not tell the messages apart |
| ErrorOnion.FailingHopMatches | crypto.go:255-265 | an error encrypted by hop k and re-encrypted by the hops before it verifies at hop k with the original bytes |
| ErrorOnion.ErrorAttribution | crypto.go:171-242 | with secrets the hops derive themselves, a sender is found no later than hop k, and it is hop k with the original bytes exactly when no earlier MAC verifies |
| ErrorOnion.PanicsExactly | crypto.go:205-232 | the path is read out of bounds exactly when no hop's layer verifies and a dummy layer past its end does; never on a path of full length |
| ErrorOnion.DummyFailurePanics | crypto.go:198-233 | for every shorter path and every content, a failure encrypted with the dummy secret and passed back by all hops is read out of bounds exactly when no hop's layer verifies |
| ErrorOnion.DummyFailureInstance | crypto.go:198-233 | primitives with which that happens for every shorter path, session key and content |
| ReplayModel.FillWellFormed | batch.go:54-82 | every batch has distinct entry prefixes, all in its cache, and the cache holds exactly the offered prefixes |
| ReplayModel.FlaggedExactly | batch.go:60-65 | a batch flags exactly the slots offered a prefix it had seen |
| ReplayModel.EntryExactly | batch.go:67-79 | it has entries for exactly the slots offered a new prefix, each the last of them with its CLTV |
| ReplayModel.VisitClosedForm | batch.go:86-93 | visiting the entries in any order writes exactly the new ones and flags exactly the logged ones |
| ReplayModel.VisitOrderIrrelevant | replaylog.go:160-176 | two visiting orders give the same log and the same replays |
| ReplayModel.BatchRefinesSequential | replaylog.go:151-185 | committing agrees with one-by-one insertion on every log, replays, entries and CLTVs, if and only if no slot is used for two different new prefixes |
| ReplayModel.DistinctSequenceNumbersRefine | batch.go:54-82 | it agrees when all sequence numbers differ |
| ReplayModel.ReusedSlotLoses | batch.go:67-79 | reusing the slot of a new prefix for another loses the first: cached, but in no entry |
| ReplayRuns.BatchesPersist | replaylog.go:156-179 | a stored replay set never changes until a restart |
| ReplayRuns.IdempotentCommit | replaylog.go:156-184 | later commits under a committed ID, by the same or another transaction, repeated or not, return the same set and leave the log alone, whatever happened in between |
| ReplayRuns.EntriesPersist | replaylog.go:124-136 | an entry stays, with its CLTV, until it is deleted or the log restarted |
| ReplayRuns.FreshAcceptance | sphinx.go:600-606 | a router call or first commit accepts only a prefix the log lacks, and logs it |
| ReplayRuns.AtMostOnce | sphinx.go:579-607 | two acceptances of one prefix, by router calls and commits, first or repeated, are the same router call or the same slot of one batch ID, unless the prefix is deleted, reused IDs disagree on a slot that was not flagged, or a transaction is left from before the log was started |
| ReplayRuns.EphemeralKeyIsSpent | sphinx.go:769-820 | after an acceptance, no packet with that ephemeral key passes the router or a first commit, and a later commit only repeats the first acceptance, under the same conditions |
| ReplayRuns.PacketBehindSlot | sphinx.go:794-808 | the packet kept for a slot is the one last processed for it, and for a slot that was not flagged the entry to be written carries its prefix |
| ReplayHistory.InspectOverPrimitives | replaylog.go:31-41 | the prefix is the first 20 bytes of the hash of the shared secret, and inspecting is otherwise reconstructing |
| ReplayHistory.AddExactly | sphinx.go:769-808 | the error of the packet itself, or that the batch is committed; none exactly when the transaction has taken the packet under its prefix and slot |
| ReplayHistory.CommitExactly | sphinx.go:812-820 | the answer and the state after a Commit in every case; a first one flags exactly the slots offered a prefix twice or whose last new prefix is logged |
| ReplayHistory.AcceptedExactly | replaylog.go:160-178 | a first commit hands out a slot's packet exactly when nothing offered for it repeated a prefix and the log lacks its prefix |
| ReplayHistory.LoggedExactly | replaylog.go:88-146 | the log holds a prefix exactly when an operation brought it and none has removed it since |
| ReplayHistory.LoggedBy | replaylog.go:124-136 | its CLTV is the one of the operation that put it there |
| ReplayHistory.EntryCarried | replaylog.go:124-136 | every entry came, with its CLTV, with a packet routed or added |
| ReplayHistory.RouteExactly | sphinx.go:579-607 | at any point of any run, a packet is refused for its own error, for a stopped log, or for a prefix brought since it was last removed, and otherwise routed |
| ReplayHistory.SecondPacketRouted | sphinx.go:590-606 | of two packets the router accepts, the second is routed after the first exactly if their prefixes differ |
| ReplayHistory.SlotExactly | sphinx.go:794-808 | a slot holds the packet of the last operation that added one to it |
| ReplayHistory.CommittedExactly | batch.go:54-58 | a transaction is committed exactly when a Commit of it met a running log |
| ReplayHistory.BegunBy | sphinx.go:752-758 | a transaction keeps the ID and the number of slots it was begun with |
| ReplaySafety.ReuseIsSafeExactly | replaylog.go:156-184 | reusing the ID of packets p for packets q keeps every acceptance unique in all runs if and only if p and q agree on the slots q fills and p did not flag |
| ReplaySafety.DisagreementBreaks | replaylog.go:156-160 | for every disagreement, a run from a freshly started log without transactions that accepts a packet twice |
| ReplaySafety.ReusedIdCounterexample | replaylog.go:156-160 | an instance: an ID stored with no packets and reused with one |
| ReplaySafety.RestartIsSafeExactly | sphinx.go:812-820 | from a freshly started log, every run whose reused IDs agree accepts each prefix once if and only if no transaction committed earlier still hands out a packet |
| ReplaySafety.RestartBreaks | sphinx.go:813-815 | for all packets of which one is not flagged, a run from a log without transactions that ends, after a restart, in a world that is not safe |
| ReplayLog.ReplaySet.Merge | replay_set.go:41-45 | the union, in any visiting order |
| ReplayLog.ReplaySet.Encode | replay_set.go:49-58 | the big-endian words of the set in some order without repetition |
| ReplayLog.ReplaySet.Decode | replay_set.go:62-81 | adds all complete words; an odd trailing byte is an error |
| ReplayLog.WordsExactly | replay_set.go:62-81 | the decoded members are exactly the pairs of bytes at even positions, high byte first |
| ReplayLog.DecodeEncodedSet | replay_set.go:47-81 | for every order of encoding, two bytes per member, and the decoded words are exactly the members |
| ReplayLog.Batch.Put | batch.go:54-82 | a committed batch is refused and untouched; otherwise the batch takes the modelled step |
| ReplayLog.MemoryReplayLog.Put | replaylog.go:124-136 | inserts only new prefixes and reports replays; a stopped log refuses |
| ReplayLog.MemoryReplayLog.Get | replaylog.go:108-119 | the stored CLTV, or why there is none |
| ReplayLog.MemoryReplayLog.Delete | replaylog.go:139-146 | removes one prefix; a stopped log refuses |
| ReplayLog.MemoryReplayLog.PutEach | replaylog.go:160-176 | the loop over the entries, in any order, writes the new and flags the logged ones |
| ReplayLog.MemoryReplayLog.PutBatch | replaylog.go:151-185 | log and batch take the modelled step; the batch is left sharing the stored set, which is new or the one stored before |
| Router.Tx.ProcessOnionPacket | sphinx.go:769-808 | a refused packet changes nothing; otherwise only this transaction takes its step, although replay sets are shared |
| Router.Tx.Commit | sphinx.go:812-820 | answer, log and transaction are those of the state machine, every other transaction is undisturbed, and the batch keeps its set or shares one that the log stores, which is known or new |
| Router.Router.ProcessOnionPacket | sphinx.go:579-607 | curve check, MAC check, then the log, as the state machine has it |
| Router.Router.BeginTxn | sphinx.go:752-758 | a new transaction with a new batch and replay set is listed under the next handle, the others stay as they are |
| Sessions.Serve | sphinx.go:579-820 | any commands, up to one that indexes out of range, are a run of the state machine from a stopped log, and the answers are those of that run, a function of the commands |
| Sessions.RoutedExactly | sphinx.go:579-607 | a packet is routed exactly if the router accepts it by itself, the log is running, and nothing with its prefix was routed or committed since the last start or expiry |
| Sessions.AddedExactly | sphinx.go:769-808 | a packet is added exactly if the router accepts it by itself and no Commit of the transaction met a running log; otherwise the answer says why |
| Sessions.CommitAnswered | sphinx.go:812-820 | as many slots as announced, the ID it was begun with, the replay set, and a refusal exactly for a log that is not running |
| Sessions.HandedOutExactly | sphinx.go:769-820 | a Commit hands out, for each slot, what the packet last added to it unwraps to |
| Sessions.EntryFromCommand | sphinx.go:602-604 | every entry of the log came with a routed or added packet of that prefix, with its CLTV |
| Sessions.RoutedOnce | sphinx.go:579-607 | once a packet is routed, none with its ephemeral key is, until a restart or the expiry of its entry |
| CircuitCodec.Circuit.Encode | obfuscation.go:89-113 | the loop writes the key, padded to 32 bytes or as long as it is, and the compressed keys, each after its length modulo 256; exactly a nil key makes it panic |
| CircuitCodec.Circuit.Decode | obfuscation.go:54-86 | the loop restores what the stream encodes; on an error the fields hold what was read before it, with nil keys in the rest of the path, and the rest of the stream is left |
| CircuitCodec.EncodedLayout | obfuscation.go:89-113 | positions and lengths of key and path, the key most significant byte first in the fewest bytes that are at least 32 |
| CircuitCodec.DecodedExactly | obfuscation.go:54-86 | for every stream, where key and path are read from and what the fields hold when it ends |
| CircuitCodec.DecodeKeysExactly | obfuscation.go:72-83 | for every stream, the keys up to the first that does not parse or lies beyond the end, and the error that says which |
| CircuitCodec.CircuitRoundTrip | obfuscation.go:54-113 | decoding an encoded circuit restores it, whatever was there before, and consumes exactly its bytes, if and only if path and key have at most 255 hops and bytes and every hop's key parses back |

## Left out

- hornet.go, log.go and cmd/main.go: declarations, logging and command-line I/O.
- The inner workings of SHA-256, HMAC, ChaCha20 and secp256k1, and with them privacy,
  unforgeability and timing.
- `NewRouter`'s address derivation, `ProcessCode.String`, `ReplaySet.Size` and
  `Contains`, and the one-field codec of `OnionErrorEncrypter`: nothing to prove.
- Failures of an `io.Writer` or `io.Reader` in the middle of an operation: streams are
  byte sequences.
- Locking of the log: each method is one atomic step.
- Sharing one log between routers, or changing a batch's exported fields or a returned
  replay set from outside.
- Secrets.GenerateSharedSecrets: excludes the empty path, on which the source indexes
  out of range; NewOnionPacket and DecryptError inherit this.
- Construction.NewOnionPacket: each iteration shifts, copies and XORs in place in a
  buffer, but the header is handed from one iteration to the next by value.
- CircuitCodec.Circuit.Decode: the reader delivers what it has and zero-fills a short
  last chunk.
