# Verified model of the Noise transport and the order ledger

A Dafny 4.11 model of the two protocols this repository is built on, with proofs. Check it with
`dafny verify dfyconfig.toml`.

**The Noise session transport** (`libp2p-noise`). `NoiseFramed` reads and writes length-delimited
messages and can be suspended at any byte; `NoiseOutput` is a byte stream above it; the handshake
drivers run two or three messages over the same framing. The transport below is arbitrary: each
call of it may wait, move any number of bytes up to the slice it was given, or fail
(`Pipe.dfy`). The Noise session is a pair of ciphers indexed by message counters (sections 3 and
5.1 of The Noise Protocol Framework, revision 34): a ciphertext is not empty, exceeds its
plaintext by at most 1024 bytes, and opens under its own counter.

**The order ledger** (`nyumt-*`). Masters append signed blocks of orders to a hash-linked table
from concurrent tasks, after two voting rounds; orders are checked and then applied to three
tables; each client is sent the ledger in batches and replays it. SHA-256, serialization and
signatures are abstract functions; where collision freedom or injectivity is needed it is a
stated premise. These premises can be met (`MatchingSetupExists`, `Existence.CodecExists`).

| file | contents |
|---|---|
| `Bytes.dfy`, `Frames.dfy` | big-endian lengths, the frame format and the pure reference parser |
| `Session.dfy`, `Pipe.dfy` | abstract ciphers, the arbitrary transport |
| `NoiseFramed.dfy`, `NoiseOutput.dfy` | the two stream objects, as classes with the fields of the code |
| `NoiseLink.dfy` | two endpoints talking: conservation, refinement of the parser, handover |
| `Payload.dfy`, `Handshake.dfy`, `HandshakeRuns.dfy` | payload codec, handshake state, both drivers interleaved |
| `Orders.dfy`, `OrderSafety.dfy` | tables, checks and effects of orders, and what they guarantee |
| `OrderEffects.dfy` | what every row and value is after any orders: that of its last writer |
| `Ledger.dfy`, `MasterRuns.dfy` | the ledger table, and a master's tasks interleaved at every read and insert |
| `MasterTables.dfy` | what the same interleavings make of the master's own users, nodes and configurations |
| `Voting.dfy`, `MasterNode.dfy` | the two voting rounds, and the request task and event handlers that run them |
| `Followers.dfy` | what a master stores that only follows |
| `Replica.dfy`, `ReplicaSafety.dfy`, `Shipping.dfy` | the client's replay, and the loop that feeds it |
| `ReplicaComplete.dfy` | exactly when the client takes a block, and a whole ledger |
| `Existence.dfy` | a codec that meets all premises on serialization, digests and signatures |

How the parts fit: a class method is proved against a relation or function on values
(`NextStep`, `ReadyStep`, `Apply`, `Deliver`, `Happen`), and the lemmas are about those. Each
`poll_next` is accounted for byte by byte: what was ahead is some skipped empty frames, then the
bytes `used` by the call, then what is ahead now. From this `InStep` (nothing read was lost) and,
for the writer, `Intact` (nothing written was repeated) follow for every call, and the two-party
theorems need nothing else. The methods of `MasterNode` share the ledger and the vote vectors with
all other tasks: wherever a task awaits, `Await` changes both arbitrarily, the ledger only in the
way `ChainAlways` shows every task does. `history` records every change of the vectors, and
`waits`, `said` and `writes` what a task waited for, gossiped and wrote; each vote is counted in
the vectors as they were at the end of a recorded wait, after the event that opened the entry.
`Own` are the changes of the vectors a task made itself, between its waits, and `Quiet` says that
it made none in the database.
`TimeoutIsStep`, `AnnouncementIsStep`, `PassedOnIsStep` and `PendingIsStep` say that the handlers do
what the interleaving model of `MasterRuns` allows them, `OutcomeArises` and `Arises` that what they
announce and reply is what the voting theorems are about.

Where the code differs from what it promises, the model follows the code and the exact condition
is proved:

- The comment on legacy payloads claims recovery for frames below 256 bytes
  (`libp2p-noise/src/io/handshake.rs:375-384`). An empty payload is always refused; every other
  encoding is recovered up to 2047 bytes (`LegacyReceived`). Beyond that it is recovered exactly
  if it does not decode as a plain payload (`LegacyExact`); the codec has a 2563-byte input that
  does (`LegacyMisread`).
- An I/O error loses a length byte that was read in the same call, or repeats one that was
  written in it; in every other case a failed call loses and repeats nothing (`NextStep`,
  `ReadyStep`, `StillIntact`). Comments at `libp2p-noise/src/io/framed.rs:398-400` and 431-433
  speak of Pending only.
- The end of the transport inside a length is reported as a clean end, with one byte given up
  (`EndInLen`).
- No request that removes a configuration is ever accepted: the query fails when the
  configuration is unused and refuses when it is used (`RemoveConfigNeverAccepted`).
- Keys are not unique in general: two requests checked before either is applied can leave a key
  with two owners (`StaleCheckDuplicates`). Over every history, however stale the checks, they
  are unique at all block boundaries exactly if every batch that takes effect adds no key twice
  and none that has an owner by then (`KeysUniqueAlways`). Configuration references survive
  stale checks (`ConfigsIntactAlways`).
- The block shipping loop skips rows, for good, when the table grows between the height poll and
  the row query by a number that is not a multiple of nine (`ShipRound`).
- A vote against an announced position is sent under the raw hash of the block, while the
  entries carry serial hashes (`nyumt-node/src/master/activity.rs:140`, 295 and 354), and an
  agreeing follower sends it as well. So agreement counts and disagreement never does
  (`OnlyAgreementCounts`): among masters that run this code no position is ever outvoted, and the
  retry for that case is never taken (`OrderVoteNeverLost`). The premise, besides collision
  freedom, is that no proposed body is a block hash followed by another one (`Unnested`); the rest
  is derived from what the order vote and the handlers do (`ArisingNeverOpposed`).
- Entries for positions are opened by a master's own order votes only
  (`nyumt-node/src/master/activity.rs:140`). A follower that has approved a block and voted for its
  position counts the votes in a vector that has no entry for it, finds no quorum (`QuorumIsOwn`),
  and does not store the block: a master that serves no requests never stores any
  (`FollowerNeverStores`).
- The timeout of an approved block closes entries by its raw hash as well
  (`nyumt-node/src/master/activity.rs:395`). Under the same premise there are none, so the entry that
  was counted is never closed (`TimeoutClosesNothing`).
- A master's tables need not be the replay of its own ledger, which is what every client computes.
  They are the replay of exactly the rows interpreted so far, in that order (`TablesAlways`), and
  so of the ledger if no row was stored by a timeout, none is waiting and no task overtook another
  between insert and interpretation (`InLedgerOrder`). Two requests that race leave the master
  with one value of a configuration and every client with another (`RaceDiverges`); rows stored
  by a timeout never take effect on the master (`TimeoutNeverInterpreted`).
- A report is lost for good when the cursor reaches its timestamp before it was sent: the cursor is
  the timestamp of the last row sent, and the next poll asks for later ones only (`StatsLost`).
- A client is told that its request was accepted before the row is inserted, and the insert may
  then fail (`ServeRequest`).
- The gossip handler checks a block's signature over the whole serialized body, the request path
  and the client over the orders only (`ValidBlock`, `Verified`). So if a signature is good for one
  message, every follower votes against every block that comes from a request
  (`RequestNeverValid`), and with weight one such a block is lost as soon as two of these votes
  are counted (`PassesAgainst`).
- Blocks archived from an `ApprovedBlockTimeout` are stored but not interpreted by the master that
  stores them (`OnApprovedTimeout`).

## Model

| member | source | states |
|---|---|---|
| Bytes.BeBytesRoundTrip | libp2p-noise/src/io/framed.rs:342-346 | the cast to u16 keeps a length exactly when it is below 65536 |
| Frames.ParseWire | libp2p-noise/src/io/framed.rs:174-263 | parsing what was framed gives every non-empty message in order; zero-length frames vanish; what follows parses as if alone |
| Frames.ParseResumes | libp2p-noise/src/io/framed.rs:394-402 | the parser may be suspended at any byte and resumed with the kept rest, with the same frames |
| Frames.ParseRestIncomplete | libp2p-noise/src/io/framed.rs:174-263 | the rest never hides a complete frame |
| Frames.UniquePrefix | libp2p-noise/src/io/framed.rs:403-425 | frames read off bytes written as non-empty frames are a prefix of those, and the remaining bytes are exactly the other frames |
| Session.OpenAllOpens | libp2p-noise/src/io/framed.rs:384-392 | the reference receiver with consecutive counters recovers the sealed messages |
| Session.OpenAllAppend | libp2p-noise/src/io/framed.rs:384-392 | opening goes on with the counter where it stopped |
| Session.UnforgedPrefix | libp2p-noise/src/io/framed.rs:228-247 | if what opens was sealed at all, and opens under its own counter only, then whatever opens is a prefix of what was sealed, frames and plaintexts |
| NoiseFraming.NoiseFramed.ReadFrameLen | libp2p-noise/src/io/framed.rs:403-425 | bytes kept plus bytes in the transport are unchanged; a length is reported exactly when both bytes are there; Pending, end and error come from the transport's answer |
| NoiseFraming.NoiseFramed.PollLen | libp2p-noise/src/io/framed.rs:185-210 | the length arm: suspends without loss, ends cleanly on end of file, skips an empty frame, enters any other; an error gives up at most one byte |
| NoiseFraming.NoiseFramed.PollData | libp2p-noise/src/io/framed.rs:211-249 | the body arm: end of file inside a body is UnexpectedEof; a full body is opened as exactly one frame; an error loses nothing |
| NoiseFraming.NoiseFramed.OpenFrame | libp2p-noise/src/io/framed.rs:227-248 | the plaintext of the frame under the current counter, which advances by one, or the sticky decryption error |
| NoiseFraming.NoiseFramed.PollNext | libp2p-noise/src/io/framed.rs:174-263 | byte-exact account of a call, terminating for every transport; nothing behind the reported frame is consumed; terminal states repeat their result and read nothing; the result has the cause it claims |
| NoiseFraming.FailedLen | libp2p-noise/src/io/framed.rs:185-198 | an error during a length keeps the old state, so exactly the byte read in this call is given up |
| NoiseFraming.EndInLen | libp2p-noise/src/io/framed.rs:410-414 | end of file after zero or one length bytes is a clean end |
| NoiseFraming.TruncatedBody | libp2p-noise/src/io/framed.rs:221-225 | end of file inside a body gives up a header and a part of the body and is reported as unexpected |
| NoiseFraming.NoiseFramed.WriteFrameLen | libp2p-noise/src/io/framed.rs:436-457 | what went out is exactly the length bytes between the two offsets |
| NoiseFraming.NoiseFramed.ReadyLen | libp2p-noise/src/io/framed.rs:281-297 | the length arm: moved bytes plus unsent bytes are unchanged, unless an error repeats the first length byte |
| NoiseFraming.NoiseFramed.ReadyData | libp2p-noise/src/io/framed.rs:298-318 | the body arm: moves a prefix of the unsent bytes, finishes exactly at the end, reports a zero write |
| NoiseFraming.NoiseFramed.PollReady | libp2p-noise/src/io/framed.rs:273-326 | success means everything unsent went out; Pending keeps the rest; after any outcome the wire is still faithful exactly if no byte was repeated; terminal states repeat their result and write nothing |
| NoiseFraming.NoiseFramed.StillIntact | libp2p-noise/src/io/framed.rs:283-306 | the frames on the wire stay what was sealed if and only if moved and unsent bytes add up |
| NoiseFraming.NoiseFramed.StartSend | libp2p-noise/src/io/framed.rs:328-355 | seals under the next counter and queues exactly one frame with its true length, or enters the sticky encryption error |
| NoiseFraming.FaithfulMove | libp2p-noise/src/io/framed.rs:273-326 | moving bytes from unsent to wire keeps the wire faithful exactly if they are the first unsent ones |
| NoiseFraming.FaithfulSeal | libp2p-noise/src/io/framed.rs:333-347 | sealing a frame extends a faithful wire by one message |
| NoiseFraming.FaithfulDecodes | libp2p-noise/src/io/framed.rs:357-360 | with nothing unsent, parsing and opening the whole wire gives all plaintexts |
| NoiseFraming.NoiseFramed.PollFlush | libp2p-noise/src/io/framed.rs:357-360 | as PollReady; success means that the transport was flushed after the last byte had gone out |
| NoiseFraming.NoiseFramed.PollClose | libp2p-noise/src/io/framed.rs:362-365 | as PollFlush; success means that the transport was closed after everything had been flushed, and otherwise it was not closed |
| NoiseFraming.NoiseFramed.IntoTransport | libp2p-noise/src/io/framed.rs:93-119 | the new object starts at the first byte still in the transport; nothing is lost exactly when no frame was in progress |
| NoiseStream.NoiseOutput.PollRead | libp2p-noise/src/io.rs:68-100 | copies the next unread bytes, at least one unless the buffer is empty, or ends without touching it; keeps the receive-buffer invariant; no byte of the wire is lost unless reported as given up |
| NoiseStream.NoiseOutput.CopyOut | libp2p-noise/src/io.rs:74-88 | hands over the longest possible prefix of the unread bytes and leaves the rest of the buffer alone |
| NoiseStream.NoiseOutput.Fetch | libp2p-noise/src/io.rs:90-98 | stores the next message, or ends with the cause the transport gave |
| NoiseStream.NoiseOutput.SendBuffered | libp2p-noise/src/io.rs:114-119 | on success the whole buffer became the next frame and the offset is zero; otherwise nothing changed above the framing |
| NoiseStream.NoiseOutput.PollWrite | libp2p-noise/src/io.rs:104-130 | accepts as much as fits, sends first exactly when the buffer is full, and both start_send assertions hold |
| NoiseStream.NoiseOutput.PollFlush | libp2p-noise/src/io.rs:132-146 | on success the offset is zero, the writer ready, the transport flushed up to its last byte, and parsing and opening the whole wire gives every byte ever accepted |
| NoiseStream.NoiseOutput.PollClose | libp2p-noise/src/io.rs:148-151 | on success everything buffered was sealed, sent and flushed, and then the transport closed; otherwise it was not closed |
| NoiseLink.InFlightFrames | libp2p-noise/src/io.rs:68-146 | the sender's counter is the receiver's plus the frames in flight, and the bytes of those are split between reader, transport and writer without gap |
| NoiseLink.Conservation | libp2p-noise/src/io.rs:68-146 | accepted bytes are delivered bytes, unread bytes, plaintexts in flight and buffered bytes, in this order |
| NoiseLink.Drained | libp2p-noise/src/io.rs:132-146 | after a flush, a reader that has read the wire to its end has every accepted byte |
| NoiseLink.RefinesParser | libp2p-noise/src/io/framed.rs:174-263 | for every splitting and suspension the messages are a prefix of what parser and reference receiver give, and all of it once the wire is read |
| NoiseLink.NeverUndecipherable | libp2p-noise/src/io/framed.rs:228-247 | the next frame of a faithful peer always opens, so a decryption error needs a transport error before it |
| NoiseLink.Send | libp2p-noise/src/io.rs:103-151 | a write takes a prefix of its data, a flush or close that is done has flushed everything or closed, Pending comes from the transport; both directions stay linked, unless the transport refused in this call or the cipher to seal |
| NoiseLink.Receive | libp2p-noise/src/io.rs:67-100 | a read hands over at least one byte, or is Pending because the transport is; both directions stay linked, unless the transport failed or ended in this call |
| NoiseLink.Converse | libp2p-noise/src/io.rs:67-152 | every script of reads, writes, flushes and closes at both ends is gone through, over every transport behaviour, to its end or up to a call in which the transport failed or moved nothing, or the cipher refused to seal; what the ends accepted and delivered is what the calls took and gave, delivery is a prefix of what was accepted, and both directions stay linked |
| NoiseLink.TamperProof | libp2p-noise/src/io/framed.rs:227-248 | over any transport, if what the receiver opened was sealed by the sender at all, and opens under its own counter only, a prefix of the accepted bytes is delivered |
| NoiseLink.Handover | libp2p-noise/src/io/framed.rs:93-119 | transport frames queued behind the last handshake message are read from their first byte |
| NoiseLink.Establish | libp2p-noise/src/io/framed.rs:93-119 | a receiver that takes the last handshake message goes over to a stream that is linked with its peer's in both directions, whatever the peer has already queued |
| NoiseLink.CompleteHandshake | libp2p-noise/src/io/framed.rs:93-119 | sending the last message, going over, writing early, and then receiving and going over at the other end gives two linked streams, unless the transport was not ready or failed, or a cipher refused |
| PayloadCodec.VarintRoundTrip | libp2p-noise/src/io/handshake/payload.proto:7-11 | every 64-bit varint decodes to itself and leaves the rest |
| PayloadCodec.VarintIs64Bit | libp2p-noise/src/io/handshake/payload.proto:7-11 | no varint decodes to a number above 64 bits, and none is longer than ten bytes |
| PayloadCodec.KeyExactly | libp2p-noise/src/io/handshake/payload.proto:7-11 | exactly which keys are valid: 32 bits, a tag that is not 0, one of the six wire types |
| PayloadCodec.MergeField | libp2p-noise/src/io/handshake/payload.proto:7-11 | decoding a field sets it and goes on behind it |
| PayloadCodec.ForeignSkipped | libp2p-noise/src/io/handshake/payload.proto:7-11 | a well-formed field with another tag, of any wire type and with groups nested to any depth, makes no difference |
| PayloadCodec.BrokenRefused | libp2p-noise/src/io/handshake/payload.proto:7-11 | a field of the payload with another wire type, or cut off, makes the whole message invalid |
| PayloadCodec.RoundTrip | libp2p-noise/src/io/handshake.rs:427-446 | every payload survives encoding and decoding, whatever its fields contain |
| PayloadCodec.PlainReceived | libp2p-noise/src/io/handshake.rs:370-402 | a plain message is recovered with and without legacy support |
| PayloadCodec.LegacyReceived | libp2p-noise/src/io/handshake.rs:374-402 | below 2048 bytes a legacy message is recovered exactly when the encoding is not empty, and refused without legacy support |
| PayloadCodec.LegacyExact | libp2p-noise/src/io/handshake.rs:374-402 | up to 65535 bytes a legacy message is recovered exactly when the payload is not empty and the message does not decode as a plain one, and is otherwise taken for what it decodes to |
| PayloadCodec.LegacyMisread | libp2p-noise/src/io/handshake.rs:375-384 | an input of the codec that is taken for a plain payload with other contents |
| Handshake.Start | libp2p-noise/src/io/handshake.rs:286-299 | a remote identity is pinned for Send and None only, the own identity is sent for Mutual and Send only |
| Handshake.State.constructor | libp2p-noise/src/io/handshake.rs:279-300 | the initial state for each identity exchange |
| Handshake.State.RecvIdentity | libp2p-noise/src/io/handshake.rs:366-420 | learns what the specification says from any message, and changes nothing on an error |
| Handshake.State.SendIdentity | libp2p-noise/src/io/handshake.rs:423-446 | builds the introduction of the local side, with the legacy prefix if configured |
| HandshakeRuns.PinnedIdentityKept | libp2p-noise/src/io/handshake.rs:404-417 | over any received messages a pinned identity is never replaced, and a signature comes from one of them |
| HandshakeRuns.MessageTaken | libp2p-noise/src/io/handshake.rs:366-420 | a message is taken exactly if its payload decodes, and its key, if it carries one, parses and is the pinned one; which error each other one gives |
| HandshakeRuns.AllHeard | libp2p-noise/src/io/handshake.rs:366-420 | after any messages: every key received is the identity learned, no message without a key changes it, and the signature is the last one received |
| HandshakeRuns.KnownExactly | libp2p-noise/src/io/handshake.rs:279-420 | from the start on: an identity is known exactly if it was pinned or some message carried it, and a pinned one is kept |
| HandshakeRuns.IntroducedExactly | libp2p-noise/src/io/handshake.rs:423-446 | what the peer reads off an introduction: the own key exactly if it is to be sent, and the signature |
| HandshakeRuns.IntroductionFields | libp2p-noise/src/io/handshake.rs:423-440 | the same of the payload, with legacy configurations as well |
| HandshakeRuns.EmptyTaken | libp2p-noise/src/io/handshake.rs:342-353 | an empty message is taken and changes nothing; the error for every other event |
| HandshakeRuns.FinishExactly | libp2p-noise/src/io/handshake.rs:306-323 | after any messages, in terms of their payloads: a complete session with a DH key ends Identified exactly if an identity was pinned or announced and is linked or verifies with the last signature, InvalidKey if it does not, StaticDhKey exactly if there is none; Unknown without a DH key |
| HandshakeRuns.IdentifiedIsVerified | libp2p-noise/src/io/handshake.rs:306-323 | a handshake that ends with an identity verified it for the session's DH key, by link or by a received signature, and it is the pinned one if any |
| HandshakeRuns.PartySends | libp2p-noise/src/io/handshake.rs:423-450 | a party whose turn it is sends its message and teaches itself nothing |
| HandshakeRuns.PartyReceives | libp2p-noise/src/io/handshake.rs:366-420 | a party waits for its message and then knows its peer |
| HandshakeRuns.PartyFinishes | libp2p-noise/src/io/handshake.rs:306-323 | after the last message a compatible peer is identified |
| HandshakeRuns.DriverRuns | libp2p-noise/src/io/handshake.rs:134-251 | whatever arrives, at any time, a driver has performed a prefix of its operations, or has stopped at an error of the next one, or has done all and finished |
| HandshakeRuns.ActStops | libp2p-noise/src/io/handshake.rs:330-451 | which error stops which operation, and why |
| HandshakeRuns.DriverIdentifies | libp2p-noise/src/io/handshake.rs:134-251 | against any peer: a driver that ends Identified did all its operations, and the identity is the pinned one or is linked or verified by the last signature received; StaticDhKey only if none was pinned and no message carried one |
| HandshakeRuns.StepAt | libp2p-noise/src/io/handshake.rs:134-251 | every step of every interleaving leads from one expected position to the next |
| HandshakeRuns.HandshakeCompletes | libp2p-noise/src/io/handshake.rs:134-251 | matching drivers never fail or deadlock in any interleaving, and finish after a fixed number of steps with each other's identity |
| HandshakeRuns.ConfigurationsMatch | libp2p-noise/src/lib.rs:174-343 | XX, IX and IK as configured by the crate match, for key pairs from into_authentic, also with legacy payloads that the other side supports |
| HandshakeRuns.MatchingSetupExists | libp2p-noise/src/lib.rs:174-343 | there are matching parties for each pattern and configuration, plain and legacy |
| OrderSafety.AcceptsEach | nyumt-proto/src/block.rs:17-33 | a batch is accepted exactly when each of its orders is, against the same tables |
| OrderSafety.SignatureFirst | nyumt-proto/src/block.rs:17-33 | a wrong signature decides; otherwise a batch is accepted exactly when each order is |
| OrderSafety.FirstAnswer | nyumt-proto/src/block.rs:17-33 | a batch that is not accepted gets the answer of its first order that is not |
| OrderSafety.RootOrder | nyumt-proto/src/block.rs:36-152 | exactly what Root may order: adding keys without owner, editing and removing keys with one, configurations that exist, weights of master rows, the own key, names of at most 30 bytes |
| OrderSafety.Answers | nyumt-proto/src/block.rs:36-152 | which answer every order gets from any user, refusals and query errors included |
| OrderSafety.OwnedExactly | nyumt-proto/src/db_calls.rs:9-28 | an entity exists exactly if the key has an owner among the rows |
| OrderSafety.UsedExactly | nyumt-proto/src/db_calls.rs:47-52 | a configuration is in use exactly if a node row names it |
| OrderSafety.ApplyFrame | nyumt-proto/src/db.rs:28-143 | an order changes no row and no configuration but those it names, and never an id, a key or a role |
| OrderSafety.DeletedNodes | nyumt-proto/src/db.rs:104-109 | rows with other keys survive a removal, in order |
| OrderSafety.InterpretKeepsIds | nyumt-proto/src/db.rs:31-56 | row ids stay unique and ascending whatever is interpreted |
| OrderSafety.NewIds | nyumt-proto/src/db.rs:31-56 | a new row gets an id above all others, the next one, or 1 in an empty table |
| OrderSafety.RemoveConfigNeverAccepted | nyumt-proto/src/db_calls.rs:47-52 | removing a configuration is refused when used and fails when unused |
| OrderSafety.InterpretKeepsConfigs | nyumt-proto/src/db.rs:16-26 | orders that were ever accepted keep all configuration references intact |
| OrderSafety.ConfigsIntactAlways | nyumt-proto/src/block.rs:36-81 | at every block boundary from genesis every node's configuration exists, however stale the checks |
| OrderSafety.NamesShortAlways | nyumt-proto/src/block.rs:83-131 | at every block boundary no name exceeds 30 bytes |
| OrderSafety.GenesisTables | nyumt-node/src/master/first.rs:13-54 | the tables after the first block |
| OrderSafety.ApplyOwners | nyumt-proto/src/db.rs:28-114 | how one order changes the number of active owners of a key |
| OrderSafety.UniqueIffHarmless | nyumt-proto/src/block.rs:36-60 | a batch accepted against any tables keeps keys unique exactly when it adds no key twice and none that has an owner where it is applied |
| OrderSafety.UniqueIffDistinctAdds | nyumt-proto/src/block.rs:36-60 | a batch checked against the tables it is applied to keeps keys unique exactly when it adds no key twice |
| OrderSafety.KeysUniqueAlways | nyumt-proto/src/block.rs:36-60 | over every history, however stale the checks, keys are unique at all block boundaries exactly if they are at the first and every batch that took effect was harmless |
| OrderSafety.KeysUniqueIfFresh | nyumt-proto/src/block.rs:36-60 | with fresh checks and no key added twice in a batch keys are unique at every block boundary |
| OrderSafety.GenesisKeysUnique | nyumt-node/src/master/first.rs:13-38 | genesis has unique keys exactly when root user and node differ |
| OrderSafety.StaleCheckDuplicates | nyumt-node/src/master_serve/req_resp.rs:79-105 | two requests checked before either is applied can leave a key with two owners |
| OrderSafety.NonRootOrder | nyumt-proto/src/block.rs:83-152 | without Root exactly the edits of the own entry within the own permissions are accepted |
| OrderSafety.NonRootBatch | nyumt-proto/src/block.rs:17-32 | exactly which batches are accepted without Root, and that they change no node, configuration or other user and add no permission |
| Orders.DeleteNodes | nyumt-proto/src/db.rs:104-109 | only rows with other keys remain |
| Orders.ApplyAllAppend | nyumt-proto/src/db.rs:16-26 | a block is interpreted in order, and the first failure ends it |
| OrderEffects.ApplyWrites | nyumt-proto/src/db.rs:28-143 | one order gives exactly the fields it names the values it names, in every row of its key, and leaves or removes the others as it says |
| OrderEffects.LastWriter | nyumt-proto/src/db.rs:28-143 | after any orders every field of every row, and every value of a configuration, is that of the last order that writes it since the row was added, and a user is active exactly if none removed it; a block fails exactly if it changes a public key |
| OrderEffects.LastIsLast | nyumt-proto/src/db.rs:28-143 | the value of the last writer is the one of an order behind which none writes, or the one before |
| OrderEffects.Reports | nyumt-proto/src/db.rs:28-143 | which update each order of a block reports, and with which values |
| OrderEffects.BlocksAreOrders | nyumt-proto/src/db.rs:16-26 | interpreting blocks is applying all orders of those that do not fail, so the last writer is found across blocks |
| Ledger.Database.AddNew | nyumt-proto/src/database/block.rs:64-72 | inserts exactly when the id is absent and changes no other row |
| Ledger.Database.GetLastBlock | nyumt-proto/src/database/block.rs:54-62 | the row with the largest id, or none for an empty table |
| Ledger.RowsFromGapless | nyumt-proto/src/database/block.rs:27-42 | on gapless ids the query yields exactly the rows above the height, in order |
| Ledger.InsertLast | nyumt-proto/src/database/block.rs:64-72 | a row above all others becomes the last |
| Ledger.Database.InterpretOrder | nyumt-proto/src/db.rs:28-143 | the effect of one order on the three tables, and the note it produces |
| Ledger.Database.InterpretBlock | nyumt-proto/src/db.rs:16-26 | one transaction: all orders take effect in order, or none |
| MasterRuns.ArchiveExtends | nyumt-node/src/master/activity.rs:690-696 | an insert computed from an older read either fails or extends the chain at its end |
| MasterRuns.TimerFits | nyumt-node/src/master/activity.rs:377-408 | the body approved under a raw hash is the one the announced position was computed for |
| MasterRuns.StepKeepsInv | nyumt-node/src/master/activity.rs:274-418 | every atomic step of any task keeps the chain and what suspended tasks remember |
| MasterRuns.ChainAlways | nyumt-node/src/master/activity.rs:616-721 | in every interleaving ids stay gapless, rows never change, and each hash digests the previous hash with the body |
| MasterRuns.BodiesSubmitted | nyumt-node/src/master/activity.rs:304-318 | in every interleaving each new row carries a body that was requested of this master or proposed to it |
| MasterRuns.GenesisInv | nyumt-node/src/master/first.rs:40-45 | the first block starts the chain |
| MasterRuns.HashPinsHistory | nyumt-node/src/master/activity.rs:125-130 | equal hashes at a height mean equal blocks at and below it |
| MasterRuns.ChainIsWellFormed | nyumt-node/src/master/activity.rs:680-696 | a master's ledger is what the client's replay asks for |
| MasterTables.StepAdds | nyumt-node/src/master/activity.rs:684-690 | a step adds at most one row, with the orders of the task that inserts it |
| MasterTables.GoesOn | nyumt-node/src/master/activity.rs:641-683 | a request that passes the first vote, or whose announcement was outvoted, goes on to the order vote |
| MasterTables.VotedAdds | nyumt-node/src/master/activity.rs:684-699 | from there a position that passes is where its row is added |
| MasterTables.TablesAlways | nyumt-node/src/master/activity.rs:684-699 | in every interleaving the tables are the replay of exactly the rows interpreted so far, in that order, none twice, and never one stored by a timeout |
| MasterTables.InLedgerOrder | nyumt-node/src/master/activity.rs:684-699 | all rows were interpreted in ledger order exactly if none was stored by a timeout, none waits and none overtook another, and then the tables are the replay of the ledger |
| MasterTables.ReplayOfOwnLedger | nyumt-node/src/master/activity.rs:684-699 | both for every run from genesis on |
| MasterTables.RaceSwaps | nyumt-node/src/master/activity.rs:684-699 | a run of two requests whose orders take effect in the order opposite to the ledger's |
| MasterTables.RaceDiverges | nyumt-node/src/master/activity.rs:684-699 | such a run leaves the master with another configuration than the replay of its ledger |
| MasterTables.TimeoutNeverInterpreted | nyumt-node/src/master/activity.rs:394-409 | a row stored by a timeout changes no table then or in any later run |
| Voting.TalliedAlways | nyumt-node/src/master/activity.rs:280-303 | with unit weights votes for and against add up to the voters, in every run |
| Voting.VotesCount | nyumt-node/src/master/activity.rs:280-291 | the tally of every block entry after any votes: each counts for or against with its weight, and once among the voters |
| Voting.SerialVotesCount | nyumt-node/src/master/activity.rs:292-303 | the same for every position |
| Voting.ClosesExactly | nyumt-node/src/master/activity.rs:165-395 | closing takes exactly the entries of the block, of the height or of the position, and no other |
| Voting.OnlyAgreementCounts | nyumt-node/src/master/activity.rs:292-361 | the tally of a position after any replies of followers: each agreement adds one vote for it, and no reply adds one against it |
| Voting.SerialIsNotRaw | nyumt-node/src/master/activity.rs:125-130 | a serial hash is never the raw hash of the same block |
| Voting.SerialsAreNotRaw | nyumt-node/src/master/activity.rs:125-130 | unless a proposed body is a block hash followed by a proposed body, no serial hash is a raw hash |
| Voting.NeverOpposed | nyumt-node/src/master/activity.rs:292-361 | then, in every run of masters that run this code, no position has a vote against it |
| Voting.ReplyExactly | nyumt-node/src/master/activity.rs:319-361 | a follower sends one vote against the raw hash, and one for the serial hash exactly if it agrees |
| Voting.OutcomeArises | nyumt-node/src/master/activity.rs:108-182 | every change an order vote makes is the opening of a position for its block behind a hash that it read |
| Voting.ArisesIsCoded | nyumt-node/src/master/activity.rs:292-361 | changes that arise from such openings, from messages announced by order votes and from the replies to them meet the premise of NeverOpposed |
| Voting.ArisingNeverOpposed | nyumt-node/src/master/activity.rs:292-361 | so in every run of masters that run this code no position has a vote against it |
| Voting.TimeoutClosesNothing | nyumt-node/src/master/activity.rs:395 | nor does the timeout of an approved block ever close a position, since it looks for the raw hash among serial hashes |
| Voting.OrderVoteNeverLost | nyumt-node/src/master/activity.rs:144-163 | in such a run an order vote is decided by its first delivered announcement, and rejected only if the ledger cannot be read |
| Voting.PassesAgainst | nyumt-node/src/master/activity.rs:229-246 | a proposal that gets only votes against it passes exactly if they are no more than the proposer's weight |
| Voting.PassesExactly | nyumt-node/src/master/activity.rs:229-246 | after any votes a proposal passes exactly if those against are no more than those for it and the weight of the proposer |
| Voting.ReceivedExactly | nyumt-node/src/master/net_behavior.rs:148-190 | the tally at a follower after its own vote and any others |
| Voting.PositionExactly | nyumt-node/src/master/activity.rs:138-163 | the tally of an announced position after any votes, and when it is outvoted |
| Voting.OrderGivesUp | nyumt-node/src/master/activity.rs:108-182 | an order vote is rejected only if every delivered announcement was outvoted in the last round too, or the ledger could not be read, and fails otherwise only if the last announcement was not delivered or its entry was gone |
| MasterNode.Swarm.OnVote | nyumt-node/src/master/activity.rs:280-291 | the vote counts once in every entry of its block and nowhere else |
| MasterNode.Swarm.OnSerialVote | nyumt-node/src/master/activity.rs:292-303 | the vote counts once in every entry of its position and nowhere else |
| MasterNode.Swarm.FindPosition | nyumt-node/src/master/activity.rs:144-163 | the first entry with the serial hash |
| MasterNode.Swarm.CheckPending | nyumt-node/src/master/activity.rs:235-245 | passes exactly if no entry for the block is outvoted |
| MasterNode.Swarm.CountBallots | nyumt-node/src/master/activity.rs:229-246 | a block passes exactly if it is uncontested in the vector as it is after the wait that follows the opening of its entry; the task itself opens that entry, closes those of a block that passed, and changes nothing else |
| MasterNode.Swarm.CountPosition | nyumt-node/src/master/activity.rs:138-146 | finds the first entry in the vector as it is after the wait that follows the opening of the entry, which is the only change the task makes |
| MasterNode.Swarm.Announce | nyumt-node/src/master/activity.rs:117-146 | announces the position after the last block of the ledger as it is after a wait, and counts if that was delivered |
| MasterNode.Swarm.BlockOrderVote | nyumt-node/src/master/activity.rs:108-182 | at most block_push_retries + 1 rounds, each from a fresh read; a delivered round is repeated only if its first entry was outvoted when counted, and the last round decides; a position returned fits the ledger; the task opens one entry for each delivered round and at last closes those of the height |
| MasterNode.Swarm.Publish | nyumt-node/src/master/activity.rs:224-272 | at most block_push_retries + 1 proposals, repeated only while there are other masters; a position is returned only if no entry of the block was outvoted when counted, and the order vote after that gave it; every error has its cause; all changes the task makes to the vectors |
| Voting.PublishedHasHalf | nyumt-node/src/master/activity.rs:224-272 | with unit weights a master that gets a position had, when they were counted, at least half of the votes in every entry of the block, and then in the first entry of the position, which follows the block read in between |
| MasterNode.Swarm.InsertBlock | nyumt-node/src/master/activity.rs:684-699 | with other tasks running before both steps, the row is inserted exactly if the ledger ends below it, its orders are interpreted exactly if it was, and the chain is kept |
| MasterNode.Swarm.ServeRequest | nyumt-node/src/master/activity.rs:641-714 | the answer to the client follows from the first read and the votes; on success the row goes to the position won, or for a lone master to the one after its first read; the chain is kept and only grows |
| MasterNode.AddsLast | nyumt-proto/src/database/block.rs:64-72 | the guarded insert of the table is the one the chain theorem is about |
| MasterNode.Swarm.OnArchiveBlock | nyumt-node/src/master/activity.rs:319-361 | votes for the position and starts a wait exactly if it computes the same one; votes against the raw hash in any case, unless the ledger cannot be read |
| MasterNode.FollowerAgrees | nyumt-node/src/master/activity.rs:319-334 | a follower that approved the block under its hash agrees with the announcement exactly if its ledger ends as the one the proposer read |
| MasterNode.AnnouncementIsStep | nyumt-node/src/master/activity.rs:319-361 | the wait starts exactly where the interleaving model starts it |
| MasterNode.PendingIsStep | nyumt-node/src/master/activity.rs:362-376 | the timeout of a proposal drops it where the interleaving model does |
| MasterNode.Swarm.OnPendingTimeout | nyumt-node/src/master/activity.rs:362-376 | the block is dropped exactly if its first entry is outvoted when scanned, and its entries are closed |
| MasterNode.Swarm.OnApprovedTimeout | nyumt-node/src/master/activity.rs:377-409 | with other tasks running before the scan, the closing of entries and the insert: stores the approved block exactly if the first entry of the position had more votes for it than against it when scanned, and writes nothing else, so its orders are not interpreted |
| MasterNode.TimeoutIsStep | nyumt-node/src/master/activity.rs:377-409 | the timeout is a step of the interleaving model and keeps the chain |
| MasterNode.QuorumExactly | nyumt-node/src/master/activity.rs:377-395 | after any votes a position has a quorum exactly if those for it, with the opening weight, are more than those against |
| Followers.EntryExactly | nyumt-node/src/master/activity.rs:138-165 | in every run a position has an entry exactly if an order vote of this master opened it and nothing closed it since; votes open none |
| Followers.QuorumIsOwn | nyumt-node/src/master/activity.rs:377-393 | so a timeout finds a quorum only at a master with an open order vote of its own on the very same position |
| Followers.FollowerNeverStores | nyumt-node/src/master/activity.rs:304-409 | a master that serves no requests never stores a block, whatever it approves and whatever votes it hears |
| MasterNode.Swarm.OnBlock | nyumt-node/src/master/net_behavior.rs:148-232 | passes on only blocks that pass the checks, after a delivered vote for them among at most vote_push_retries; otherwise votes against and forgets every entry for the hash; its only changes are the announcement, its vote and the closing |
| MasterNode.ValidExactly | nyumt-node/src/master/net_behavior.rs:152-172 | a block is valid exactly if its hash is that of its body, the body decodes and is signed as a whole by an active user, and each order is accepted with the permissions of that user |
| MasterNode.PassedOnIsStep | nyumt-node/src/master/net_behavior.rs:192-200 | what is passed on is taken by the interleaving model as an approved block |
| MasterNode.RequestNeverValid | nyumt-node/src/master/net_behavior.rs:172 | a request that a master accepts gives a block that no gossip handler accepts, since its signature is over the orders |
| ReplicaLedger.Client.HandleBlock | nyumt-client-core/src/client/req_resp.rs:93-153 | refused without change, stored with its orders rolled back, or stored, interpreted and counted |
| ReplicaLedger.Client.Handle | nyumt-client-core/src/client/req_resp.rs:40-52 | goes through all blocks, and disconnects once for each that failed |
| ReplicaLedger.DeliverOne | nyumt-client-core/src/client/req_resp.rs:93-153 | one delivery replaces no row and interprets at most a new height |
| ReplicaLedger.AnyDeliveries | nyumt-client-core/src/client/req_resp.rs:93-153 | for any deliveries: no row replaced, each height interpreted at most once, tables are the replay of exactly the committed blocks, last counts them |
| ReplicaLedger.InOrder | nyumt-client-core/src/client/req_resp.rs:93-153 | in-order deliveries that all succeed make the replica the master's prefix, tables and row ids included |
| ReplicaComplete.FirstActiveExactly | nyumt-proto/src/database/auth.rs:39-43 | the user of a key is its first active row |
| ReplicaComplete.VerifiedExactly | nyumt-client-core/src/client/req_resp.rs:103-137 | a block is verified exactly if it is signed over its orders by the active user of its key, and each order is accepted with the permissions of that user |
| ReplicaComplete.FateExactly | nyumt-client-core/src/client/req_resp.rs:93-153 | exactly when a delivered block is stored, genesis without a signature, and when it is interpreted as well |
| ReplicaComplete.TakesAll | nyumt-client-core/src/client/req_resp.rs:93-153 | a client that has the rows below interprets all others, in order, exactly if each decodes, changes no public key and is signed and accepted where it stands |
| ReplicaComplete.FreshTakesAll | nyumt-client-core/src/client/req_resp.rs:93-153 | the same for a fresh client and a whole ledger, genesis included, and that it then has the ledger and the tables of its replay |
| ReplicaComplete.ShipsWhole | nyumt-node/src/master_serve/activity.rs:227-265 | a shipping round ends without a disconnect exactly if every row it delivers can be taken |
| ReplicaSafety.CheckedMeans | nyumt-client-core/src/client/req_resp.rs:103-137 | an interpreted block was signed by an active user whose stored permissions allow all of it |
| ReplicaSafety.CommittedWasChecked | nyumt-client-core/src/client/req_resp.rs:103-149 | the check was against the replay of exactly the blocks before it |
| ReplicaSafety.ReplicaStaysSafe | nyumt-client-core/src/client/req_resp.rs:93-153 | once genesis is stored, for any deliveries configuration references stay intact, and keys unique if no block adds a key twice |
| Shipping.Feed.ShipBlocks | nyumt-node/src/master_serve/activity.rs:227-261 | batches of 9 rows in order, of which only the one that ends at the polled height may be shorter; how many rows are read but not sent; the cursor counts all of them |
| Shipping.Feed.ShipRound | nyumt-node/src/master_serve/activity.rs:227-265 | exactly the rows above the cursor are sent if poll and query see the same table; otherwise growth modulo nine rows are skipped for good |
| Shipping.Feed.ShipStats | nyumt-node/src/master_serve/activity.rs:266-317 | reports concatenate to the rows in order in batches of 9, of which only the last of a complete read may be shorter, and the cursor is the timestamp of the last row sent, also when the query fails |
| Shipping.SentExactly | nyumt-node/src/master_serve/activity.rs:266-312 | a complete read sends everything; a failed one sends whole batches and leaves 1 to 9 rows |
| Shipping.Feed.PollStats | nyumt-node/src/master_serve/activity.rs:266-317 | one poll sends what the query yields above the cursor, and moves the cursor |
| Shipping.PollAdvances | nyumt-proto/src/database/node.rs:166-169 | a poll sends only rows above the cursor, which never moves back |
| Shipping.NeverBehind | nyumt-proto/src/database/node.rs:166-169 | no run of polls sends a row at or below the cursor |
| Shipping.StatsLost | nyumt-proto/src/database/node.rs:166-182 | over a poll that may fail and one that does not: how often each row is sent, exactly which rows are not, and that these are lost for good |
| Shipping.ShipAndReplay | nyumt-node/src/master_serve/activity.rs:227-265 | one round into a client delivers exactly the rows it lacks, in order, with one disconnect for each not interpreted; if there is none it ends with the master's whole ledger and the tables that interpreting it gives |

## Left out

- Real cryptography, key generation, key conversion, zeroizing and the snow resolver: the cipher, signature and key functions are parameters.
- The decrypt buffer and its reuse between frames: a plaintext is a value.
- Awaiting in the handshake drivers: a driver takes whole messages from FIFO channels; that the framing delivers whole messages in order is `NoiseLink`, and a future that is polled and stays Pending is a step not taken.
- Panics: a handshake message above `MAX_FRAME_LEN`, which fails an assertion of `start_send`, has no successor state.
- Group nesting limits in unknown payload fields: groups are skipped to any depth.
- tokio, libp2p swarms, gossipsub, mdns, request-response plumbing and timeouts: steps and outcomes that may happen at any time.
- SQL text, sqlx and borsh: tables are sequences and a map, serialization is a parameter and does not fail; the access time of users is not kept.
- MasterNode.Swarm.Publish: the configured number of retries is fixed during a call, and the wait for votes is an arbitrary delay, as in effect it is in the code.
- Liveness of voting and agreement between masters: only safety of one master's ledger is stated.
- MasterNode.Swarm.ServeRequest: assumes a table with at most 2^63 - 1 rows, because the next id would be negative as a signed integer.
- MasterNode.Swarm.OnBlock: the queries of one check see the tables at one moment.
- MasterTables.TablesAlways: interpreting a block is one step, as it is one transaction.
- Shipping.Feed.ShipBlocks: failing serialization of a batch is not modelled.
- The command line, settings files, plotting, encrypted storage, `systemstat` and the statistics parsers: user interface and foreign input.
