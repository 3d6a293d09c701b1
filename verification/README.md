# ScreenMesh in Dafny

A model of the hard parts of ScreenMesh, with proofs. ScreenMesh is an encrypted mesh of a user's
own devices: envelopes under per-message ratchet keys, a relay that stores and forwards, carriers that
take bundles to devices that are offline, chunked file transfer, and an acoustic link layer (Cyrinx) on
Android. Verify everything with

    dafny verify dfyconfig.toml

## The modules

| module | what it models |
|---|---|
| `Ratchet`, `RatchetKeys`, `RatchetCache`, `RatchetRoots`, `RatchetRun` | the Double Ratchet session; one session under arbitrary headers, and what its cache gives up; what keys depend on; and every run of two sessions over a network that loses and reorders headers |
| `Mesh`, `MeshCarry`, `MeshPairing`, `MeshNode` | store-carry-forward between any number of devices: outbox drains, carriers, seen records, ratchet sessions and hop budgets, await by await; that carrying works and that pairings stay apart; the engine's methods proved to be runs of that machine |
| `FileTransfer` | chunked files: durable buffers, acks, a reload between any two writes, stall retry |
| `Handshake`, `HandshakeCalls` | accept, reject and open on a confirmed object, as interleaved asynchronous calls, and the same calls one at a time |
| `Relay` | the relay's connections and queues under its socket events |
| `FourierRing`, `BitReversal`, `Fft`, `FftInverse` | the in-place radix-2 FFT, over any commutative ring and then over complex numbers with real parts, and back again |
| `ShiftRegister`, `Crc`, `HeaderBits`, `Frame` | checksums as linear shift registers, bit fields, and the Cyrinx frame |
| `Reassembly`, `ReassemblyRun`, `Transport` | fragmentation, reassembly and the transport session |
| `OfdmBits` | length prefix, symbols, constellations and lengths of the OFDM body |
| `Base64`, `Text`, `SharedText`, `Pairing`, `SignedBytes` | codecs: base64, joins and number printing, the pairing code, and what signatures cover |
| `NativeHost`, `RequestQueue` | the length-prefixed native host and the extension's one-in-flight queue |
| `Splice` | a text edit as one minimal splice |
| `Binary`, `Wrappers` | powers of two and an option type |

Code that changes state is modelled by classes and methods with the source's fields and loops. Each method
is proved against a function on the abstract state, or against a run of a state machine, and the theorems
are about those functions and machines. Cryptographic primitives are free constructors: keys, derived keys
and signatures are equal only when built from equal parts, and key agreement commutes.

## What the proofs found

- The ratchet's comment (packages/crypto/src/ratchet.ts:15-17) lets either side send first. If both do, the
  keys part: `BothSendFirst` says exactly when the peer's first headers still open.
- A duplicated link frame is harmless only when it is the first of several fragments
  (`RetransmissionHarmlessIff`); ingestFrame does not filter by sequence number.
- The seen table forgets a message after seven days at a restart, and bundles live exactly as long. A copy still on its
  way at that moment, or a row that expires between a pass's delete and its read, gets past the table afterwards
  (`ReadmittedIff`, `CopyOutlivesRecord`). The ratchet refuses it: no session uses a message key twice whatever headers
  it is fed (`KeysUsedOnce`), so that a message is applied at most once in every run (`Mesh.AppliedAtMostOnce`).
- The confirmation handshake can pass through both accepted and rejected. `BothReachableIff` says from which states;
  the ways into them are four: an accept and a reject of one row at once, a reload between the reject message and the
  delete, a second row, as when every chunk of a file is sent again because no ack came through, and a markOpened on a
  row that a sweep has just expired. `HandshakeHolds` covers every run without these, and each alone has a run.
- A relay authentication whose signature check ends after its socket has closed hands the backlog to the closed socket
  and cuts off a newer open one (`LateAuthIff`, `LateAuthDisplaces`).
- An envelope's signed text is ambiguous exactly when an id holds a bar, or bars in the ratchet key separate numbers in
  the right places (`TextSharedIff`); the same holds of rotations and newlines (`RotationSharedIff`).
- A lan.disconnected event is taken for the answer to the request in flight
  (apps/companion-extension/background.js:46-52); `OwnAnswersIff` says that nothing else mismatches requests and
  answers.
- A payload of more than 65535 bytes is cut by the OFDM length prefix, while expectedOfdmSamples counts all of it.
- SM1 pairing codes accept an expiry that is not a number; SM2 codes do not. `PairingRoundTripIff` gives the
  exact condition on each field.

## Model

| member | source | states |
|---|---|---|
| `Ratchet.RatchetSession.constructor` | packages/crypto/src/ratchet.ts:162-186 | a new session: the root key from the identity agreement, the pairing secret, the workspace and the two device ids in order (`SameRootIff` says what that distinguishes); this device's identity pair, the peer's identity as the known public key, no chains, counters zero, an empty cache |
| `Ratchet.RatchetSession.PushSkipped` | packages/crypto/src/ratchet.ts:199-202 | the cache becomes the last 50 of the old cache with the new key appended |
| `Ratchet.RatchetSession.TakeSkipped` | packages/crypto/src/ratchet.ts:204-216 | finds the first entry of that public key and number, removes exactly it and keeps the order of the rest; otherwise nothing changes |
| `Ratchet.RatchetSession.SkipForwardTo` | packages/crypto/src/ratchet.ts:219-240 | throws, with the session untouched, exactly when a chain is there and more than 500 keys would be skipped; otherwise every passed message key of the chain is cached in order and the chain stands at the asked number |
| `Ratchet.RatchetSession.RatchetEncrypt` | packages/crypto/src/ratchet.ts:247-271 | opens a chain by one DH step when there is none, then gives the header and key of the next number; the whole new state is stated |
| `Ratchet.RatchetSession.RatchetDecrypt` | packages/crypto/src/ratchet.ts:280-325 | cached key, DH step after draining the old chain, or current chain; which error when; the whole new state in each case |
| `RatchetRun.StartInv` | packages/crypto/src/ratchet.ts:162-186 | two fresh sessions of one pair share one root key and are in lockstep |
| `RatchetRun.SendKeepsInv` | packages/crypto/src/ratchet.ts:247-271 | sending keeps lockstep: roots on one sequence of DH steps at most one apart, caches sound, every header in flight at its true position |
| `RatchetRun.DeliverKeepsInv` | packages/crypto/src/ratchet.ts:280-325 | delivering any header that is still unspent, and whose key has not been evicted, keeps the same invariant |
| `RatchetRun.LegalRunInv` | packages/crypto/src/ratchet.ts:199-240 | the lockstep invariant in every state of every legal run: at most 50 cached keys, no two for one position, each its sender's true key, those of the current chain below the receive number |
| `RatchetRun.SpentNeverOpens` | packages/crypto/src/ratchet.ts:280-324 | a spent header never yields its key again, and on the current chain always throws |
| `RatchetRun.Agreement` | packages/crypto/src/ratchet.ts:219-325 | after any legal run any header in flight opens with exactly its sender's key if and only if it is unspent and the 500 limit is not hit; an unspent one that misses its key threw on that limit |
| `RatchetRun.CarefulRunIsLegal` | packages/crypto/src/ratchet.ts:199-240 | a run with one initiator, no header twice and never more than 50 outstanding keys never loses the key of an undelivered header |
| `RatchetRun.AtMostOnceAgreement` | packages/crypto/src/ratchet.ts:219-325 | over every such run, in any order and with at most 50 outstanding keys, lost ones included, each undelivered header opens with its sender's key or throws on the 500 limit, whatever threw before |
| `RatchetKeys.KeysUsedOnce` | packages/crypto/src/ratchet.ts:247-325 | over any sequence of sends and receipts of arbitrary headers, forged, repeated or past the limits, no two calls of one session use the same message key, whether to seal or to open |
| `RatchetKeys.DecryptUses` | packages/crypto/src/ratchet.ts:280-325 | whatever header comes, a key already used is not yielded and stays used, and a yielded key is used from then on |
| `RatchetRun.BothSendFirst` | packages/crypto/src/ratchet.ts:15-17 | the comment lets either side send first; when both do, the peer's first-chain headers open here exactly when this side has sent nothing |
| `RatchetRoots.SameRootIff` | packages/crypto/src/ratchet.ts:162-186 | two sessions start from one root key if and only if pairing secret, workspace, the unordered pair of device ids and the unordered pair of identity keys are the same |
| `RatchetRoots.PairingsApart` | packages/crypto/src/ratchet.ts:162-325 | sessions that differ in any of these never use a common message key, whatever they send and whatever headers they are fed |
| `RatchetRoots.OtherPairingNeverOpens` | packages/crypto/src/ratchet.ts:162-325 | a header sealed under one pairing never opens with its sender's key in a session of another secret or workspace, however far the two have run |
| `RatchetRoots.PartedForGood` | packages/crypto/src/ratchet.ts:188-197 | once the roots of two sessions have parted, any key both use later comes from before |
| `RatchetRoots.SameSealIff` | packages/crypto/src/ratchet.ts:250-262 | two sessions open a sending chain with the same key, and go on with the same root, if and only if their roots are the same and they agree from the same two key pairs |
| `RatchetRoots.SameStepIff` | packages/crypto/src/ratchet.ts:288-312 | the same of the receiving DH step |
| `RatchetRoots.CopyIsLeftBehind` | packages/crypto/src/ratchet.ts:309-312 | healing: after a step with another key pair, a copy of the session and the session use no further key in common |
| `RatchetCache.EvictsOldest` | packages/crypto/src/ratchet.ts:199-202 | a cached key that goes missing without being yielded leaves exactly 50 behind, every one of them newer |
| `RatchetCache.OnlyOldestLost` | packages/crypto/src/ratchet.ts:199-240 | so in every reachable session, whatever header comes |
| `FourierRing.TransformIsDft` | apps/android/app/src/main/java/com/dweekly/cyrinxhil/FFT.kt:54-95 | over any commutative ring with a half-turn root, the butterflies on the bit-reversed input give the DFT sum, for every power-of-two size |
| `FourierRing.InverseUndoes` | apps/android/app/src/main/java/com/dweekly/cyrinxhil/FFT.kt:45-95 | transforming back with the inverse root gives each value times the size |
| `FftInverse.RoundTrip` | apps/android/app/src/main/java/com/dweekly/cyrinxhil/FFT.kt:45-95 | transform forward and then inverse, on one set of tables, leaves every value of both arrays multiplied by the size |
| `FftInverse.TablesServeBoth` | apps/android/app/src/main/java/com/dweekly/cyrinxhil/FFT.kt:34-46 | tables that hold the powers of the forward root hold, read without the sign, those of its conjugate |
| `FftInverse.RootInverse` | apps/android/app/src/main/java/com/dweekly/cyrinxhil/FFT.kt:34-46 | a root that turns to -1 after half its steps has its conjugate as inverse |
| `BitReversal.RevInvolution` | apps/android/app/src/main/java/com/dweekly/cyrinxhil/FFT.kt:24-32 | the bit-reversal table is an involution |
| `BitReversal.BitReversedAt` | apps/android/app/src/main/java/com/dweekly/cyrinxhil/FFT.kt:24-32 | the even/odd recursion of the transform puts at i the value from the table's index for i |
| `Fft.FFT.Log2` | apps/android/app/src/main/java/com/dweekly/cyrinxhil/FFT.kt:12-22 | the exponent for a power of two, and a rejection of every other size |
| `Fft.FFT.constructor` | apps/android/app/src/main/java/com/dweekly/cyrinxhil/FFT.kt:24-43 | the bit-reversal table holds the reversal of each index; the cosine and sine tables are as given |
| `Fft.FFT.BitReverse` | apps/android/app/src/main/java/com/dweekly/cyrinxhil/FFT.kt:54-66 | the swap loop applies that permutation to both arrays |
| `Fft.FFT.Butterfly` | apps/android/app/src/main/java/com/dweekly/cyrinxhil/FFT.kt:80-89 | one butterfly: the sum and the difference with the turned lower value, everything else unchanged |
| `Fft.FFT.Block` | apps/android/app/src/main/java/com/dweekly/cyrinxhil/FFT.kt:74-92 | one block of butterflies, in place: the two outputs of each pair, everything else unchanged |
| `Fft.FFT.Stage` | apps/android/app/src/main/java/com/dweekly/cyrinxhil/FFT.kt:69-94 | one stage doubles the size of the finished blocks |
| `Fft.FFT.Transform` | apps/android/app/src/main/java/com/dweekly/cyrinxhil/FFT.kt:49-95 | with tables that hold the powers of a root, the arrays end up holding the DFT sum of what they held |
| `ShiftRegister.FeedAllLinear` | apps/android/app/src/main/java/com/dweekly/cyrinxhil/CyrinxTransportSession.kt:783-808 | checksum registers are linear over exclusive-or |
| `ShiftRegister.ClearedOnlyBy` | apps/android/app/src/main/java/com/dweekly/cyrinxhil/CyrinxTransportSession.kt:783-808 | the only word of register length that clears a register is the register itself |
| `ShiftRegister.BurstDetected` | apps/android/app/src/main/java/com/dweekly/cyrinxhil/CyrinxTransportSession.kt:783-808 | two equal-length messages differing only within the register's width leave different registers |
| `Crc.Crc16Ccitt` | apps/android/app/src/main/java/com/dweekly/cyrinxhil/CyrinxTransportSession.kt:783-796 | the byte loop computes the specified CRC of the given range |
| `Crc.Crc32c` | apps/android/app/src/main/java/com/dweekly/cyrinxhil/CyrinxTransportSession.kt:798-808 | the same for CRC-32C |
| `Crc.UpdateFeeds16` | apps/android/app/src/main/java/com/dweekly/cyrinxhil/CyrinxTransportSession.kt:783-796 | the byte-wise CRC is the bit-serial register fed the message bits, high bit first |
| `Crc.UpdateFeeds32` | apps/android/app/src/main/java/com/dweekly/cyrinxhil/CyrinxTransportSession.kt:798-808 | the same for CRC-32C, low bit first |
| `Crc.Crc16IsRegister` | apps/android/app/src/main/java/com/dweekly/cyrinxhil/CyrinxTransportSession.kt:783-796 | crc16ccitt of any data is the register of x^16 + x^12 + x^5 + 1 started at all ones |
| `Crc.Crc32IsRegister` | apps/android/app/src/main/java/com/dweekly/cyrinxhil/CyrinxTransportSession.kt:798-808 | crc32c of any data is, bit for bit, the complement of the register of 0x1EDC6F41 started at all ones |
| `Crc.Crc16DetectsBursts` | apps/android/app/src/main/java/com/dweekly/cyrinxhil/CyrinxTransportSession.kt:783-796 | differences within 16 consecutive bits always change crc16ccitt, at any length |
| `Crc.Crc32DetectsBursts` | apps/android/app/src/main/java/com/dweekly/cyrinxhil/CyrinxTransportSession.kt:798-808 | differences within 32 consecutive bits always change crc32c |
| `Crc.Crc32DetectsFourBytes` | apps/android/app/src/main/java/com/dweekly/cyrinxhil/CyrinxTransportSession.kt:798-808 | differences within four consecutive bytes always change crc32c |
| `HeaderBits.WriteBits` | apps/android/app/src/main/java/com/dweekly/cyrinxhil/CyrinxTransportSession.kt:729-742 | or-s the low bits of the value into the buffer at that bit position, high bit first; no other bit changes |
| `HeaderBits.ReadBits` | apps/android/app/src/main/java/com/dweekly/cyrinxhil/CyrinxTransportSession.kt:744-755 | the number written in those bits |
| `Frame.SerializeHeader` | apps/android/app/src/main/java/com/dweekly/cyrinxhil/CyrinxTransportSession.kt:626-646 | fifteen bytes with every field in its place and its own checksum |
| `Frame.ParseHeaderBytes` | apps/android/app/src/main/java/com/dweekly/cyrinxhil/CyrinxTransportSession.kt:648-696 | the fields, exactly when length and checksum are right |
| `Frame.ParseUndoesSerialize` | apps/android/app/src/main/java/com/dweekly/cyrinxhil/CyrinxTransportSession.kt:626-681 | parsing a serialized header in range gives the header back |
| `Frame.ParsedIsSerialized` | apps/android/app/src/main/java/com/dweekly/cyrinxhil/CyrinxTransportSession.kt:648-681 | whatever parses is the serialization of what it parses to, and in range |
| `Frame.FieldPositions` | apps/android/app/src/main/java/com/dweekly/cyrinxhil/CyrinxTransportSession.kt:626-681 | which of the 120 bits each field of a parsed header is, highest bit first, and that the last 16 are the checksum of the first 13 bytes |
| `Frame.AcceptedMeansCleared` | apps/android/app/src/main/java/com/dweekly/cyrinxhil/CyrinxTransportSession.kt:648-681 | a header parses exactly when its 120 bits clear the checksum register |
| `Frame.HeaderBurstRejected` | apps/android/app/src/main/java/com/dweekly/cyrinxhil/CyrinxTransportSession.kt:648-681 | a header corrupted within 16 consecutive bits, checksum included, never parses |
| `Frame.FrameRoundTrip` | apps/android/app/src/main/java/com/dweekly/cyrinxhil/CyrinxTransportSession.kt:515-555 | a built frame is accepted with its header and payload |
| `Frame.OnlyBuiltFramesAccepted` | apps/android/app/src/main/java/com/dweekly/cyrinxhil/CyrinxTransportSession.kt:253-290 | only frames that sendInternal could have built are accepted |
| `Frame.AcceptedBytes` | apps/android/app/src/main/java/com/dweekly/cyrinxhil/CyrinxTransportSession.kt:253-290 | a frame is accepted if and only if it is C7 58, a header that parses, as many payload bytes as it says, and the CRC-32C of all that, highest byte first |
| `Frame.FrameBurstRejected` | apps/android/app/src/main/java/com/dweekly/cyrinxhil/CyrinxTransportSession.kt:268-275 | a frame corrupted within four consecutive covered bytes is rejected with the CRC error |
| `Frame.BuildFrame` | apps/android/app/src/main/java/com/dweekly/cyrinxhil/CyrinxTransportSession.kt:544-553 | magic, header, payload and CRC-32C, in this order |
| `Frame.CheckFrame` | apps/android/app/src/main/java/com/dweekly/cyrinxhil/CyrinxTransportSession.kt:260-290 | the checks of ingestFrame in order, with the error each gives |
| `Reassembly.FragmentsDeliver` | apps/android/app/src/main/java/com/dweekly/cyrinxhil/CyrinxTransportSession.kt:453-493 | from any state, fragments in order, with ACKs, handshakes and damaged frames between, leave exactly one message queued |
| `Reassembly.MessageRoundTrip` | apps/android/app/src/main/java/com/dweekly/cyrinxhil/CyrinxTransportSession.kt:121-226 | every message of 1 to 4096 bytes arrives once with its bytes, stream, priority and FIN/RST flags |
| `Reassembly.RetransmissionHarmlessIff` | apps/android/app/src/main/java/com/dweekly/cyrinxhil/CyrinxTransportSession.kt:453-493 | a frame received twice in a row leaves delivery as it was if and only if it is the first of several fragments |
| `ReassemblyRun.QueuedIsOneStream` | apps/android/app/src/main/java/com/dweekly/cyrinxhil/CyrinxTransportSession.kt:453-493 | every message queued, whatever frames arrived in whatever order, is exactly the pieces between two frames: of one stream, a start at most at the first and the end at the last, FIN and RST when a piece has them, at most 4096 bytes |
| `ReassemblyRun.HoldsPieces` | apps/android/app/src/main/java/com/dweekly/cyrinxhil/CyrinxTransportSession.kt:453-493 | at every moment an active buffer holds exactly the pieces since some frame |
| `Transport.TransportSession.SendInternal` | apps/android/app/src/main/java/com/dweekly/cyrinxhil/CyrinxTransportSession.kt:515-574 | one frame carrying the given fields, this session's id and gear and the rate of that gear, or the stated error; ACK tracking as asked |
| `Transport.TransportSession.SendFragment` | apps/android/app/src/main/java/com/dweekly/cyrinxhil/CyrinxTransportSession.kt:144-216 | one to five copies of the fragment, all under one sequence number, until it is acknowledged, and the timeout after five |
| `Transport.TransportSession.SendFragments` | apps/android/app/src/main/java/com/dweekly/cyrinxhil/CyrinxTransportSession.kt:125-223 | the fragments in order, each as often as its acknowledgement took |
| `Transport.TransportSession.Send` | apps/android/app/src/main/java/com/dweekly/cyrinxhil/CyrinxTransportSession.kt:99-226 | argument errors first, then not-running, then the pieces: their bytes and on-air flag bits, FIN and RST exactly as the caller gave them on the last; when nothing is retransmitted, any receiver queues the message with exactly these two bits |
| `Transport.TransportSession.IngestData` | apps/android/app/src/main/java/com/dweekly/cyrinxhil/CyrinxTransportSession.kt:453-493 | the reassembly state and queue after one data frame, and when the message is too long |
| `Transport.TransportSession.IngestChecked` | apps/android/app/src/main/java/com/dweekly/cyrinxhil/CyrinxTransportSession.kt:292-513 | handshake, ACK and data branches: reassembly, acknowledgement, and the reply code of each |
| `Transport.TransportSession.IngestFrame` | apps/android/app/src/main/java/com/dweekly/cyrinxhil/CyrinxTransportSession.kt:253-513 | a frame that fails a check changes nothing and gives its error; any other is ingested |
| `Transport.TransportSession.Receive` | apps/android/app/src/main/java/com/dweekly/cyrinxhil/CyrinxTransportSession.kt:228-251 | the oldest queued message, once |
| `Transport.SentOnceDeliversOnce` | apps/android/app/src/main/java/com/dweekly/cyrinxhil/CyrinxTransportSession.kt:99-226 | what send puts on the air without retransmission delivers the message once |
| `FileTransfer.JoinedAll` | packages/sync/src/engine.ts:400-403 | the chunks sendFileChunks cuts, joined, are the file |
| `FileTransfer.CompleteIsOriginal` | packages/sync/src/engine.ts:1298-1319 | what a complete buffer materialises is the original content and metadata |
| `FileTransfer.NextKeepsInv` | packages/sync/src/engine.ts:1266-1327 | every receiver step, a crash between any two writes and a reload keep: buffers hold only true chunks, memory is the durable table plus the chunk being written, acks are sound |
| `FileTransfer.OnlyOriginalsMaterialise` | packages/sync/src/engine.ts:470-492 | in every state of every run a materialised object is the original file, and no step replaces one that is there |
| `FileTransfer.ReloadRestoresTable` | packages/sync/src/engine.ts:440-463 | after a reload the in-memory buffers hold exactly the rows of the durable table |
| `FileTransfer.AckedIsDurable` | packages/sync/src/engine.ts:1273-1345 | every index the sender recorded is held durably or the file was materialised; indices are distinct and in range, so a full count means every chunk |
| `FileTransfer.RetryRoundCompletes` | packages/sync/src/engine.ts:440-537 | from any reachable state, also while down, starting up or between two writes: the receiver's own steps can reach idle, take at most a stated number, and however they get there one loss-free round over the indices not yet acked then materialises the file and acks every chunk |
| `FileTransfer.OwnStepWorks` | packages/sync/src/engine.ts:440-492 | each of the receiver's own steps, starting up included, lowers a bound on the steps left |
| `FileTransfer.Startable` | packages/sync/src/engine.ts:440-458 | for every durable table there is a grouping of its rows into buffers |
| `FileTransfer.FileReceiver.OnFileChunk` | packages/sync/src/engine.ts:1266-1327 | the FILE_CHUNK case, run without interruption, is the machine's steps in order |
| `FileTransfer.FileReceiver.GroupRows` | packages/sync/src/engine.ts:441-458 | the grouping loop rebuilds each file's buffer from its rows |
| `FileTransfer.FileReceiver.Rehydrate` | packages/sync/src/engine.ts:440-463 | start-up finishes every complete file, overwrites no object and sends no ack |
| `FileTransfer.FileReceiver.FinishIncomingFileIfComplete` | packages/sync/src/engine.ts:470-492 | a complete file is materialised and both its buffers dropped |
| `FileTransfer.ChunkMessagesExact` | packages/sync/src/engine.ts:400-432 | the messages sent are honest and are exactly the chosen indices |
| `FileTransfer.ChunksJoinToFile` | packages/sync/src/engine.ts:400-432 | the data of a full send, joined, is the file |
| `FileTransfer.EmittedChunks` | packages/sync/src/engine.ts:393-433 | the messages sent are the chosen chunks, once each in order: 200000 characters from the right place, the total, and the metadata with the first only |
| `FileTransfer.FileSender.SendFileChunks` | packages/sync/src/engine.ts:393-433 | the loop appends exactly those messages: the chosen chunks, each with its place, total and data |
| `FileTransfer.FileSender.OnChunkAck` | packages/sync/src/engine.ts:1328-1345 | an index is recorded once; other transfers are untouched |
| `FileTransfer.FileSender.RetryStalled` | packages/sync/src/engine.ts:502-537 | resends exactly the indices that are not acked, and nothing when all are |
| `Mesh.StepKeepsInv` | packages/sync/src/engine.ts:951-1095 | every copy of an envelope anywhere is the sealed one, bundle lifetimes are seven days from sealing, and whatever was applied is in the seen table or too old for any pass |
| `Mesh.ActedSeen` | packages/sync/src/engine.ts:243-247 | only a restart forgets a seen record, and only one whose bundle has expired, because the two periods are equal |
| `Mesh.AppliedAsSealed` | packages/sync/src/engine.ts:1138-1179 | whatever a device applies is, operation for operation, an envelope sealed for it in its workspace |
| `Mesh.StepKeepsSessions` | packages/sync/src/engine.ts:1154-1161 | in every step each stored session stays sound and the key of every envelope applied stays used up in its session |
| `Mesh.AppliedAtMostOnce` | packages/sync/src/engine.ts:1138-1179 | in every run, over any sends, carriers, repeats, corruptions, interruptions and restarts, no device applies a message twice |
| `Mesh.ReadmittedIff` | packages/sync/src/engine.ts:243-247 | the seen table by itself: a message applied and since forgotten can get past it to the ratchet again if and only if a copy is on the network, in a running pass, or stored where a pass is between its delete and its read |
| `Mesh.GoneForGood` | packages/sync/src/engine.ts:994-1021 | an expired message with none of these never gets past the seen table again, whatever happens |
| `Mesh.SeenTableSuffices` | packages/sync/src/engine.ts:243-247 | when no restart forgets a message with a copy on its way, no copy of an applied message reaches the ratchet |
| `Mesh.CopyOutlivesRecord` | packages/sync/src/engine.ts:50-51 | a run showing that this condition is needed: a copy of an applied message reaches the ratchet |
| `Mesh.CarryBudget` | packages/sync/src/engine.ts:1059-1095 | in every reachable state hop limit plus carriers recorded is the initial hop limit; carriers are distinct and never the destination or this device |
| `Mesh.OffersRunOut` | packages/sync/src/engine.ts:1059-1095 | recording an offer takes exactly one from the sum of hop limits, the offer itself nothing, and only sealing a new message adds |
| `Mesh.CarriedIff` | packages/sync/src/engine.ts:1399-1420 | what a carrier holds after an envelope, from tables and operations alone: an id is there if and only if it was before or some operation carries an unexpired bundle of that id for another device; old rows stay, and a new one is the first such bundle |
| `MeshCarry.CarriedAcross` | packages/sync/src/engine.ts:1010-1095 | from any state in which the sessions are in step: a row with hops left is handed to a carrier and, any time before it expires, reaches its destination; the carrier ends up without it |
| `MeshCarry.CarriedToDestination` | packages/sync/src/engine.ts:925-1095 | from every reachable state: a message for a device out of reach, handed to a third device, is applied at its destination as it was sealed and exactly once, whenever within seven days the carrier gets there |
| `MeshPairing.AppliedWithinPairing` | packages/sync/src/engine.ts:1138-1161 | in every run, with any workspaces and secrets on one network, whatever a device applies was sealed by a device of its workspace paired with its secret |
| `MeshNode.MeshNode.DeliverBytes` | packages/sync/src/engine.ts:974-992 | the direct channel first, then the relay: as an envelope for own bundles, as a forward for carried ones; nothing is sent exactly when there is neither |
| `MeshNode.MeshNode.SendOps` | packages/sync/src/engine.ts:925-966 | seals under the session's next key and saves the session, then live, or one outbox row with a seven-day lifetime and an empty offer list |
| `MeshNode.MeshNode.DrainOutbox` | packages/sync/src/engine.ts:994-1002 | a row stays if and only if it has not expired and has no route; every other unexpired row is sent once, direct or as an envelope; the loop is a run of the machine |
| `MeshNode.MeshNode.AttemptCarriedDelivery` | packages/sync/src/engine.ts:1010-1021 | a carried row stays if and only if it has not expired and its destination is not online or has no route; every other unexpired one is sent once, direct or as a forward; the loop is a run of the machine |
| `MeshNode.MeshNode.OfferCarrying` | packages/sync/src/engine.ts:1059-1095 | each row with hops left goes to the first suitable peer; only offers that went out are recorded; the loop is a run of the machine |
| `MeshNode.MeshNode.HandleIncoming` | packages/sync/src/engine.ts:1138-1179 | applied exactly when addressed here, of this workspace, unseen, genuine and the ratchet yields its key; the session is saved also when it does not; the tables afterwards are the machine's |
| `MeshNode.MeshNode.ApplyOps` | packages/sync/src/engine.ts:1399-1420 | after the loop an id is carried if and only if it was before or some operation carries an unexpired bundle of that id for another device; old rows stay, a new one is the first such bundle |
| `MeshNode.MeshNode.Start` | packages/sync/src/engine.ts:243-247 | exactly the seen records older than seven days go |
| `Relay.StepKeepsInv` | apps/server/src/relay.ts:76-210 | every handler keeps the books of every device |
| `Relay.RelayKeepsBooks` | apps/server/src/relay.ts:54-86 | in every run: sent followed by queued is an in-order subsequence of routed; routed is sent, queued, dropped, expired and purged, each once; queues hold at most 1000 and are empty while the device is online; envelopes go only to sockets that proved to be the recipient |
| `Relay.StaysOnline` | apps/server/src/relay.ts:192-200 | while a device's socket is left alone the device stays online by it whatever other sockets do or close, and every accepted envelope goes straight to it |
| `Relay.AuthDrainsBacklog` | apps/server/src/relay.ts:126-139 | authenticating on an open socket empties the queue to that socket: each envelope without expiry and each whose expiry the clock had not passed, once and in order, all of it when nothing has an expiry |
| `Relay.HandedOverIff` | apps/server/src/relay.ts:133-137 | the positions handed over are exactly those without expiry or with the clock at most at it, in increasing order |
| `Relay.ExpiredHadPassed` | apps/server/src/relay.ts:134-136 | every envelope counted as expired, in any run, carried an expiry below the clock reading of an authentication of its recipient |
| `Relay.RoutedFrom` | apps/server/src/relay.ts:141-168 | every envelope routed, in any run, was submitted by a socket whose latest accepted authentication before that was in the envelope's workspace and, unless forwarded, as its sender |
| `Relay.LetInIff` | apps/server/src/relay.ts:141-168 | and a submission is let in if and only if there is such an authentication |
| `Relay.LateAuthIff` | apps/server/src/relay.ts:126-139 | when a signature check ends, the backlog goes to that socket either way, and the device is online afterwards, whatever it was, if and only if that socket is still open |
| `Relay.LateAuthCutsOff` | apps/server/src/relay.ts:126-139 | after one that came too late nothing reaches the device until it authenticates again |
| `Relay.LateAuthDisplaces` | apps/server/src/relay.ts:126-139 | a run in which that cuts off a device whose newer socket is open |
| `Relay.RelayServer.Route` | apps/server/src/relay.ts:77-86 | the whole new state after routeOrQueue |
| `Relay.RelayServer.OnSubmit` | apps/server/src/relay.ts:141-168 | accepted exactly when the socket is authenticated in the envelope's workspace and, unless forwarded, as its sender; then handed to an open connection or queued up to 1000 |
| `Relay.RelayServer.OnAuth` | apps/server/src/relay.ts:126-139 | registration and the drain loop: the tables afterwards, and what was handed over from expiries and clock readings alone |
| `Relay.RelayServer.OnClose` | apps/server/src/relay.ts:192-200 | the connection entry goes only when it is still this socket's |
| `Relay.RelayServer.DisconnectDevice` | apps/server/src/relay.ts:203-210 | queue purged, entry removed, socket closed |
| `Handshake.StepKeepsInv` | packages/sync/src/engine.ts:707-766 | every read and write of the asynchronous calls keeps: replies and statuses go back to a call that passed its guard, and an accept and a reject of one row need an overlap or a cut |
| `Handshake.RecordIsTrue` | packages/sync/src/engine.ts:1346-1397 | over all interleavings: delivered only after acceptObject wrote the row, rejected only after rejectObject sent its message, opened only after one of the first or a markOpened that read an expired, unaccepted row |
| `Handshake.LosesOpenedIff` | packages/sync/src/engine.ts:1346-1397 | an opened record is lost in a step if and only if a rejection arrives, the sender sends again or it drops the record |
| `Handshake.OpenedStays` | packages/sync/src/engine.ts:1346-1372 | so it stays opened in every run without these three, whatever confirmations come late or again in any order |
| `Handshake.LosesRejectedIff` | packages/sync/src/engine.ts:1346-1397 | a rejected record gives way exactly to an acceptance that arrives or to what the sender does |
| `Handshake.BecomesIff` | packages/sync/src/engine.ts:1346-1397 | each status is reached exactly by its own message or event, from whatever status, but delivered not from opened |
| `Handshake.BothReachableIff` | packages/sync/src/engine.ts:707-766 | from any reachable state some continuation that makes no row takes the sender's record through both rejected and delivered or opened if and only if each of the two can still come: from the row's status, a call past its guard, or a message sent |
| `Handshake.AfterRejectIff` | packages/sync/src/engine.ts:755-766 | once a reject message is out, exactly when an acceptance can still show: the row is still there for acceptObject or markOpened, one of them is past its guard, or its message is out |
| `Handshake.AfterAcceptIff` | packages/sync/src/engine.ts:733-748 | once an accept message is out, exactly when a rejection can still show: the row is pending, rejectObject is past its guard, or its message is out |
| `Handshake.BookingReopensIff` | packages/sync/src/engine.ts:1477-1507 | when rows may be made again both can come from every state in which the sender still has its record |
| `Handshake.BothOnlyIf` | packages/sync/src/engine.ts:1346-1397 | passing through both needs an accept and a reject of one row under way at once, a reload between reject message and delete of a pending row, a second row, or markOpened on an expired, unaccepted row |
| `Handshake.HandshakeHolds` | packages/sync/src/engine.ts:707-766 | without these four, with any other overlap and any order, loss or repetition of replies: accepted statuses only after an accept, rejected only after a reject, never both |
| `Handshake.SequentialHolds` | packages/sync/src/engine.ts:707-766 | one call at a time, with no reload inside a call and no second row, is enough for never both |
| `Handshake.OverlapPassesBoth` | packages/sync/src/engine.ts:733-766 | the first of the four alone leads to both |
| `Handshake.ReloadPassesBoth` | packages/sync/src/engine.ts:755-766 | so does the second alone |
| `Handshake.RebookingPassesBoth` | packages/sync/src/engine.ts:1477-1507 | and the third alone |
| `Handshake.ExpiredRowOpens` | packages/sync/src/engine.ts:707-726 | the fourth alone reports opened without any accept |
| `HandshakeCalls.Recipient.AcceptObject` | packages/sync/src/engine.ts:733-748 | runs exactly on a pending row; the call by itself is a sequential run of the machine |
| `HandshakeCalls.Recipient.RejectObject` | packages/sync/src/engine.ts:755-766 | the same: row and object gone, one reject message |
| `HandshakeCalls.Recipient.MarkOpened` | packages/sync/src/engine.ts:707-726 | opens unless pending, opened or absent; deletes afterwards when asked to |
| `HandshakeCalls.Recipient.RecordIncomingDelivery` | packages/sync/src/engine.ts:1477-1507 | a pending row only when there is none; no reply |
| `HandshakeCalls.Recipient.SweepExpired` | packages/sync/src/engine.ts:1100-1111 | an unopened row becomes expired and the object goes |
| `HandshakeCalls.SenderRecord.ApplyReply` | packages/sync/src/engine.ts:1346-1397 | the sender's row for each old status and reply: delivered does not undo opened, opened and rejected always show |
| `Base64.AtobUndoesBtoa` | packages/protocol/src/base64.ts:3-19 | every byte string comes back from its base64 text |
| `Base64.DigitIs` | packages/protocol/src/base64.ts:3-10 | the alphabet: letters, digits, plus and slash, in the order of RFC 4648 |
| `Base64.GroupIsNumber` | packages/protocol/src/base64.ts:3-10 | three bytes and their four digits are one number, highest first |
| `Base64.ShortGroups` | packages/protocol/src/base64.ts:3-10 | one or two bytes at the end: their number with zero bits added, and padding signs |
| `Base64.ThreeAtATime` | packages/protocol/src/base64.ts:3-10 | the text of bytes is that of the first three followed by that of the rest |
| `Base64.UrlSafeSigns` | packages/protocol/src/base64.ts:22-24 | plus and slash become minus and underscore, the padding signs at the end go, nothing else changes |
| `Base64.UrlSafeRoundTripIff` | packages/protocol/src/base64.ts:22-31 | URL-safe and back is the identity exactly on canonical padded text |
| `Base64.EncodedIsCanonical` | packages/protocol/src/base64.ts:3-10 | base64 of bytes is canonical and survives |
| `Base64.ToBase64` | packages/protocol/src/base64.ts:3-10 | the chunked loop gives the base64 of all the bytes |
| `Base64.FromBase64` | packages/protocol/src/base64.ts:12-19 | the decoded bytes, or null where atob throws |
| `Base64.Base64FromUrlSafe` | packages/protocol/src/base64.ts:27-31 | the padding loop ends at the canonical text |
| `Text.SplitUndoesJoin` | packages/crypto/src/pairing.ts:70-93 | fields without the separator come back from the joined text |
| `Text.SplitCountIff` | packages/crypto/src/pairing.ts:93-106 | the field count survives exactly when no field holds the separator |
| `Text.ValueOfPrint` | packages/crypto/src/pairing.ts:75 | reading a printed number gives it back, in any base |
| `Text.WholeTextIff` | packages/crypto/src/envelope.ts:26-41 | which texts toString prints for whole numbers |
| `Pairing.ParseUndoesPrint` | packages/crypto/src/pairing.ts:103 | parseInt undoes toString in base 36 on every whole number |
| `Pairing.AddressSurvives` | packages/crypto/src/pairing.ts:114 | dots to dashes and back is the identity on valid IPv4 |
| `Pairing.ValidIpv4Iff` | packages/crypto/src/pairing.ts:29-32 | an address is let through if and only if it is four numbers from 0 to 255, as they print, with dots between |
| `Pairing.EndpointOkIff` | packages/crypto/src/pairing.ts:34-43 | which endpoints are let through: the address, the port range, ids of at least 16 URL-safe characters, and a pin that is base64 of 32 bytes |
| `Pairing.CodeText` | packages/crypto/src/pairing.ts:67-90 | a code is SM1 or SM2 and its fields in this order with dots between |
| `Pairing.BlanksIgnored` | packages/crypto/src/pairing.ts:93 | blanks around a code change nothing |
| `Pairing.SafeIff` | packages/crypto/src/pairing.ts:124-126 | a safe number is a whole one of fewer than 54 bits |
| `Pairing.DottedFieldRejected` | packages/crypto/src/pairing.ts:93-112 | a dot inside a field never goes unnoticed |
| `Pairing.PairingRoundTripIff` | packages/crypto/src/pairing.ts:67-130 | encoding succeeds and decoding gives the payload back, less the server URL, exactly for carriable payloads: a condition on each field that can be checked before encoding |
| `Pairing.CodesDiffer` | packages/crypto/src/pairing.ts:67-90 | carriable payloads differing in anything but the server URL have different codes |
| `Pairing.ApplicationPayloadsCarriable` | packages/crypto/src/pairing.ts:29-44 | payloads built as the application builds them, with key and pin from bytes, are carriable |
| `SignedBytes.CanonicalTextUnambiguous` | packages/crypto/src/envelope.ts:26-41 | the signed text of an envelope whose ids hold no bar is that of no other envelope whatever, absent and present expiry included |
| `SignedBytes.CanonicalTextIs` | packages/crypto/src/envelope.ts:26-41 | the signed text is these twelve fields in this order with bars between, an absent expiry being empty |
| `SignedBytes.TextSharedIff` | packages/crypto/src/envelope.ts:26-41 | an envelope shares its signed text with another if and only if a bar occurs in one of its four ids, or bars in its ratchet key separate number texts where a creation time, an expiry and a sequence number can be read |
| `SignedBytes.RotationTextUnambiguous` | packages/protocol/src/relay.ts:87-102 | the same for pairing rotations whose ids hold no newline |
| `SignedBytes.RotationTextIs` | packages/protocol/src/relay.ts:87-102 | the two tags and six fields in this order with newlines between |
| `SignedBytes.RotationSharedIff` | packages/protocol/src/relay.ts:87-102 | a rotation shares its text with another request or workspace if and only if a newline occurs in one of its ids, or newlines in its nonce separate number texts where the two times can be read |
| `SignedBytes.NeverConfused` | packages/protocol/src/relay.ts:87-102 | no envelope text is a rotation text |
| `NativeHost.StepKeepsInv` | apps/agent/src/companion.ts:139-158 | while nothing oversized has arrived, the bytes received are the handled messages re-encoded followed by the buffer, each answered once |
| `NativeHost.HandlesInOrder` | apps/agent/src/companion.ts:139-158 | for messages of at most 1 MiB, however the bytes are cut up and whenever they arrive, what has been handled is the first so many messages, answered in order |
| `NativeHost.HandlesExactlyIff` | apps/agent/src/companion.ts:139-158 | when all bytes are in and the host is idle, exactly the sent messages were handled with one reply each if and only if none exceeds 1 MiB |
| `NativeHost.TurnReadsBytes` | apps/agent/src/companion.ts:139-158 | one turn in the bytes themselves: the first four give the length, lowest first; above 1 MiB refused, complete taken, else left |
| `NativeHost.HeaderBytes` | apps/agent/src/companion.ts:116-121 | the four length bytes, lowest first |
| `NativeHost.CompanionHost.OnData` | apps/agent/src/companion.ts:139-158 | the buffering loop is a run of the machine and stops only when no whole message is left |
| `RequestQueue.ResolvedAtMostOnce` | apps/companion-extension/background.js:40-78 | requests are resolved at most once and in order, at most one is in flight, none waits while none is in flight |
| `RequestQueue.OwnAnswersIff` | apps/companion-extension/background.js:45-54 | every request gets its own answer or the port's failure if and only if no lan.disconnected event is delivered while a request is in flight |
| `RequestQueue.AllResolved` | apps/companion-extension/background.js:40-78 | with no such event, once nothing is under way on the port every request made has been resolved, in order, with its own answer or the failure |
| `RequestQueue.Extension.Pump` | apps/companion-extension/background.js:40-71 | the variables afterwards are the machine's |
| `RequestQueue.Extension.RequestNative` | apps/companion-extension/background.js:73-78 | queue, then pump |
| `RequestQueue.Extension.OnPortMessage` | apps/companion-extension/background.js:45-54 | events are passed over, anything else resolves the active request and pumps |
| `RequestQueue.Extension.OnPortDisconnect` | apps/companion-extension/background.js:55-62 | the active request and then every queued one fails |
| `OfdmBits.UnpackUndoesPack` | apps/android/app/src/main/java/com/dweekly/cyrinxhil/AcousticPhyLink.kt:1677-1694 | unpacking symbols gives the bits back, followed only by zeros |
| `OfdmBits.DecodeUndoesEncode` | apps/android/app/src/main/java/com/dweekly/cyrinxhil/AcousticPhyLink.kt:1697-1754 | whatever bits follow, decoding gives the first 65535 bytes of the payload |
| `OfdmBits.EncodedBit` | apps/android/app/src/main/java/com/dweekly/cyrinxhil/AcousticPhyLink.kt:1697-1733 | which bit of what is sent is which bit of which byte: highest bit first, two length bytes, high byte first, then at most 65535 bytes |
| `OfdmBits.SymbolRoundTripIff` | apps/android/app/src/main/java/com/dweekly/cyrinxhil/AcousticPhyLink.kt:1677-1754 | for any bits per symbol and any trailing symbols the payload survives exactly when it has at most 65535 bytes |
| `OfdmBits.BodyRoundTrip` | apps/android/app/src/main/java/com/dweekly/cyrinxhil/AcousticPhyLink.kt:987-1068 | if every point arrives within half the spacing of where it was sent, demapping, unpacking and decoding give the payload back |
| `OfdmBits.QpskSurvives` | apps/android/app/src/main/java/com/dweekly/cyrinxhil/AcousticPhyLink.kt:1568-1573 | QPSK symbols survive a shift smaller than the level |
| `OfdmBits.QpskPoints` | apps/android/app/src/main/java/com/dweekly/cyrinxhil/AcousticPhyLink.kt:1056-1066 | the low bit turns the real part, the high bit the imaginary part |
| `OfdmBits.QpskRegions` | apps/android/app/src/main/java/com/dweekly/cyrinxhil/AcousticPhyLink.kt:1568-1573 | which symbol a point is taken for, wherever it arrives: by the signs, zero counting as positive |
| `OfdmBits.Qam16Survives` | apps/android/app/src/main/java/com/dweekly/cyrinxhil/AcousticPhyLink.kt:1575-1621 | 16-QAM symbols survive a shift smaller than half the spacing |
| `OfdmBits.Qam64Survives` | apps/android/app/src/main/java/com/dweekly/cyrinxhil/AcousticPhyLink.kt:1623-1675 | the same for 64-QAM |
| `OfdmBits.Qam16Points` | apps/android/app/src/main/java/com/dweekly/cyrinxhil/AcousticPhyLink.kt:1575-1600 | low two bits real, high two imaginary, four levels two apart in Gray order |
| `OfdmBits.Regions16` | apps/android/app/src/main/java/com/dweekly/cyrinxhil/AcousticPhyLink.kt:1597-1621 | the same for an axis of 16-QAM: each level from halfway below it, included, to halfway above it |
| `OfdmBits.Qam64Points` | apps/android/app/src/main/java/com/dweekly/cyrinxhil/AcousticPhyLink.kt:1623-1660 | low three bits real, high three imaginary, eight levels two apart in plain order |
| `OfdmBits.Regions64` | apps/android/app/src/main/java/com/dweekly/cyrinxhil/AcousticPhyLink.kt:1653-1675 | and for an axis of 64-QAM |
| `OfdmBits.ExpectedIsEmittedIff` | apps/android/app/src/main/java/com/dweekly/cyrinxhil/AcousticPhyLink.kt:1550-1566 | expectedOfdmSamples is the emitted length exactly when the carriers the mask leaves on have room for the symbols in the frames all carriers would need; always with an all-ones mask |
| `OfdmBits.NothingExpected` | apps/android/app/src/main/java/com/dweekly/cyrinxhil/AcousticPhyLink.kt:1550-1566 | no samples are expected exactly without carriers, a transform or a prefix |
| `OfdmBits.EncodeBits` | apps/android/app/src/main/java/com/dweekly/cyrinxhil/AcousticPhyLink.kt:1697-1733 | the bit loop writes the length-prefixed payload |
| `OfdmBits.MapBitsToSymbols` | apps/android/app/src/main/java/com/dweekly/cyrinxhil/AcousticPhyLink.kt:1677-1694 | the symbol loop packs the bits, the last symbol filled with zeros |
| `OfdmBits.Decode` | apps/android/app/src/main/java/com/dweekly/cyrinxhil/AcousticPhyLink.kt:1710-1754 | null for too few bits or fewer than the prefix asks for; otherwise the bytes |
| `OfdmBits.ActiveBins` | apps/android/app/src/main/java/com/dweekly/cyrinxhil/AcousticPhyLink.kt:998-1012 | exactly the carriers past the mask or with their mask bit set, highest bit of a byte first, in order |
| `OfdmBits.ReadBitsMsb` | apps/android/app/src/main/java/com/dweekly/cyrinxhil/AcousticPhyLink.kt:968-985 | the field at that position, zeros past the end |
| `Splice.FindEnds` | packages/sync/src/engine.ts:112-122 | the loops stop at the longest common prefix and the longest common suffix of the rest |
| `Splice.SpliceIsMinimal` | packages/sync/src/engine.ts:110-125 | no single contiguous replacement deletes or inserts fewer characters |
| `Splice.ApplyTextDiff` | packages/sync/src/engine.ts:110-125 | the text becomes the wanted one, by a minimal splice |

## Left out

- RatchetRun.AtMostOnceAgreement: one initiator, as the second device's first send comes after its first receipt; what happens otherwise is `BothSendFirst`. Keys of lost messages count toward the 50, so runs that lose more are outside; `Agreement` covers every legal run.
- Ratchet.RatchetSession.RatchetEncrypt: one atomic step. The engine handles incoming envelopes one at a time but does not keep a send from coming between the awaits of a receipt on the same session; such an interleaving can use a number or a key twice.
- Ratchet.RatchetSession.RatchetDecrypt: the same.
- RatchetRoots.SameRootIff: the parts of the key derivation's info text are kept apart; ids that contain the bar between them are not distinguished from others in the source.
- MeshPairing.AppliedWithinPairing: secret and workspace of a device do not change; rotating a pairing is not modelled.
- Fft.FFT.constructor: the cosine and sine tables are parameters; the loop that computes them in floating point is not modelled.
- Fft.FFT.Transform: exact arithmetic; that the tables hold powers of a root of unity is a precondition, so rounding of the float tables and sums is not modelled.
- Transport.TransportSession.Send: the wait for an acknowledgement is a number per fragment (after how many attempts it came), in place of the clock and the receiving thread.
- Transport.TransportSession.SendFragment: the same number stands for the wait after each attempt.
- Transport.TransportSession.SendFragments: the same, one number per fragment.
- Transport.TransportSession.Receive: waiting on an empty queue and timing out are not modelled.
- Transport.TransportSession.IngestChecked: the peer's capability fields, channel reports, metrics and gear adaptation beyond the gear number are not kept.
- Mesh.AppliedAtMostOnce: one shared clock; a device knows every peer's identity key, and removing a device, which deletes its session, is not modelled. A handleIncoming is cut short after saving the session or not at all, so a crash between two operations of one envelope is not modelled.
- Mesh.OffersRunOut: an offer whose message could not be sent live, or whose recording a restart cut off, is not recorded by the source, so the number of such offers is not bounded.
- MeshNode.MeshNode.DrainOutbox: the clock is read once for the pass and nothing comes between its awaits; in the machine both are free.
- MeshNode.MeshNode.AttemptCarriedDelivery: the same.
- MeshNode.MeshNode.OfferCarrying: the same, and a message's creation time is that of the pass.
- MeshNode.MeshNode.HandleIncoming: envelope expiry is not set by the engine and not checked here.
- FileTransfer.FileSender.RetryStalled: the stall and failure timers and the failed status are not modelled.
- FileTransfer.FileReceiver.OnFileChunk: the method runs without a reload inside it; reloads between its writes are steps of the machine.
- HandshakeCalls.Recipient.AcceptObject: the call runs by itself; the interleavings are in `Handshake`.
- HandshakeCalls.Recipient.RejectObject: the same.
- HandshakeCalls.Recipient.MarkOpened: the same.
- NativeHost.CompanionHost.OnData: every answer is ready before more data arrives; data arriving during an answer is in the machine.
- Pairing.PairingRoundTripIff: numbers are whole and safe, or NaN; fractions, infinities and unsafe whole numbers are not represented.
- Pairing.ParseUndoesPrint: unbounded whole numbers; a double loses digits beyond the safe range.
- SignedBytes.CanonicalTextUnambiguous: text rather than UTF-8 bytes, so unpaired surrogates, which encode alike, are not distinguished from each other in the source; numbers are whole.
- SignedBytes.TextSharedIff: the same.
- SignedBytes.RotationTextUnambiguous: the same.
- SignedBytes.RotationSharedIff: the same.
- OfdmBits.BodyRoundTrip: points are exact reals; equalisation, normalisation and the inverse FFT between the two ends are the assumption that points arrive near where they were sent.
- OfdmBits.QpskSurvives: exact reals in place of floats.
- OfdmBits.Qam16Survives: exact reals in place of floats.
- OfdmBits.Qam64Survives: exact reals in place of floats.
- Relay.AuthDrainsBacklog: an envelope handed to a socket that has closed meanwhile counts as handed over, as the source makes no difference; `LateAuthIff` says what that costs.
- Ed25519, X25519, AES-GCM, HKDF and SHA-256: symbolic, with only the algebra the protocols need.
- The sender's status while a chunked send is still under way (packages/sync/src/engine.ts:352-384): an early delivered status may be overwritten by sending, so no monotonicity is claimed.
- retryDelivery and continueOnDevice on a confirmed object: they send again, which is the booking of a second row when the first is gone.
- Yjs merging and Dexie: the shared text is a string, tables are maps, and each single read or write is atomic.
- The Kotlin counterparts of the ratchet, engine, pairing and envelope code: the same algorithms as the TypeScript.
- Preamble search, correlation, equalisation and the other floating-point signal processing of AcousticPhyLink.kt, and its audio threads.
- WebSocket, WebRTC and TLS sockets, HTTP routes, presence broadcasts and WebRTC signalling of the relay, and the device registry behind it: authentication is an accepted or refused event.
- Activity records, presence of editors, object conversion, revocation and the user interfaces.
