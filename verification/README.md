# Veyra Link: a verified model of the media path and of pairing

Veyra turns a phone into a PC webcam. The phone splits each H.264 frame into numbered packets, seals them under
session keys that a PIN pairing has established, and sends them over UDP; the PC checks, opens, de-duplicates and
reassembles them and smooths their arrival with a jitter buffer. This project models that path and proves what it
is for: nothing but what was sent comes out, unchanged, in order and at most once; what is not lost comes out, under
an exact condition on the receiver and on the packets that arrive; and the keys that this rests on are the ones that
both parties of one PIN pairing hold.

`dafny verify dfyconfig.toml` checks everything.

## How the model is built

Each component is a class whose methods change its fields as the source does, proved against a function on the
value of its state (`FrameReassembler.PushPacket` against `Reassembler.Push`, and so on). Theorems about whole
runs are lemmas about those functions.

| file | models |
|---|---|
| `Bytes.dfy`, `Protocol.dfy` | fixed-width fields, the 34-byte packed header |
| `Crypto.dfy` | key schedule, nonces, sealing and opening around abstract primitives |
| `ReplayFilter.dfy` | the 64-bit replay window |
| `Packetizer.dfy` | fragmentation, sealing and numbering of video and audio |
| `Sealing.dfy` | what each packet was sealed under, in the terms of the primitives, and how audio is admitted |
| `Reassembler.dfy`, `ReassemblerInvariants.dfy` | the receiver, and what every run of calls on it keeps |
| `Integrity.dfy`, `Survival.dfy`, `TraceInvariance.dfy` | sender, any channel and receiver together: what comes out is genuine, and exactly when it comes out |
| `Completeness.dfy`, `Wraparound.dfy` | channels without loss, and the end of the sequence numbers |
| `Leftovers.dfy` | what a receiver keeps from before it was armed |
| `JitterBuffer.dfy`, `Session.dfy` | the sorted bounded queue, and the pipeline in front of the frame callback |
| `Pairing.dfy`, `NativeSender.dfy`, `PairingServer.dfy`, `PairingClient.dfy` | the phone's and the PC's handlers |
| `PairingProtocol.dfy`, `PairedMedia.dfy` | both parties over one connection, and the media that follows |
| `RingBuffer.dfy`, `LineSplitter.dfy`, `TransportManager.dfy` | supporting structures |
| `Wrappers.dfy`, `Sequences.dfy` | helpers |

X25519, HKDF and ChaCha20-Poly1305 are the function-valued fields of `Crypto.Primitives`. All that is assumed of
them is `Primitives.Laws`: the exchange commutes (section 6.1 of RFC 7748), HKDF output has the requested length
(section 2.3 of RFC 5869), opening inverts sealing and the tag is 16 bytes (section 2.8 of RFC 8439). Each
primitive may fail. Unforgeability is not a law: it is the hypothesis `Integrity.Unforged` on one run.

Clocks, random draws (PINs, tokens, key pairs) and received bytes are inputs. The channel is an arbitrary sequence
of datagrams.

## What turned out to have an exact condition

- Fragments rebuild a frame exactly when it is at most 65535 times the payload size: the count is a 16-bit cast
  (`FragmentsRebuildFrameIff`).
- Nonces are distinct exactly as long as the fragments and audio payloads to be sealed number at most 2^32
  (`NoncesDistinctIff`, and `SealedNoncesDistinctIff` in terms of the packets).
- Of a frame whose packets are all delivered, and nothing else meanwhile, exactly this becomes: it comes out if the
  receiver is open for it (a keyframe if it waits for one, otherwise an id that is not stale), has room for it (one
  fragment only, or fewer than sixteen newer frames pending), and no missing packet was overtaken by one numbered
  64 or more above it (`FrameEmittedIffWithinWindow`). On any run, with losses and other frames in between, it comes
  out exactly if every fragment is held or arrives fresh while the receiver is open, and until then no newer frame
  comes out and never are sixteen newer ones pending (`FrameEmittedIff`); it suffices that at most 15 newer ones have
  begun to arrive, none of them whole (`FrameSurvivesLoss`).
- So when nothing is lost, everything comes out exactly if the receiver is open for the first frame and has room for
  each (`AllDeliveredIff`, `PairedMediaIsComplete`). A new receiver is; one that is armed again need not be, since
  arming clears neither the pending frames nor the last emitted id: sixteen foreign fragments collected before
  pairing starve it (`FilledClientStarves`), and a phone that numbers its frames anew is not seen until it passes the
  last id seen before (`RestartedCounterUnseen`).
- And it does so exactly up to the last sequence number (`StreamCompleteIff`): the frame in which the numbers wrap is
  lost, and the packets after it are refused (`WrappedAreIdle`).
- The stale test recognises every late packet of the last emitted frame and of older ones for exactly the first
  2^31 - 1 frames (`FrameIdsCoveredIff`); an older frame that is 2^31 - 1 or more ids behind is emitted again after
  newer ones (`OlderFrameEmittedIff`). Id 0 is the reassembler's "uninitialised" sentinel: a frame under that id is
  complete exactly when a packet announces one fragment and brings a new index (`SentinelFrameCompletesIff`).
- Some way of reading a stream drops the connection exactly when there are positions a <= b <= c such that a line
  begins at a, no newline lies between a and b, c is at most 4095 after b and more than 65536 after a
  (`CanTripIff`); otherwise framing is the same in every chunking (`FramingIndependentIff`). Lines of up to 61441
  characters are always safe (`FramingIndependentOfChunking`).
- An emitted frame is the sent one exactly if the pieces that were held under its id before, in the place of those
  sent, join to its data (`HeldFragmentsEmerge`); foreign fragments under other ids do no harm (`EndToEndIntegrity`).
  Such pieces can be collected unkeyed, and arming keeps them (`PendingForgeryEmerges`).
- A head frame leaves the jitter buffer exactly when it was held for the target delay or the queue is half full
  (`ReleasedIff`), the target being 20 ms throughout a session, to which nothing reports statistics: so its first
  keyframe is delivered at once exactly if 20 ms pass between push and poll (`FirstFrameWaits`).
- A lockout ends exactly 30 seconds after the fifth wrong PIN, if the client stays connected (`LockoutEndsIff`,
  `PairsAfterLockoutIff`).
- The phone dispatches every command of every pairing run exactly when the client was not still streaming as it
  connected (`NothingRefusedIff`).

Where the code and its documentation disagree, the model follows the code: the phone sends `pairing_challenge` and
the PC answers (the repository's README has the arrows the other way); the largest payload is 1166 bytes, not the
1168 of a comment in `protocol.h`; the magic that a comment spells `VEYR` is `RYEV` on the wire (`PacketPrefix`); and closing a control connection resets the pairing manager, so the documented
30-second lockout holds within a connection (`LockoutRateBound`) but every new connection gets a PIN
(`EveryVisitGetsPin`): k connections within a time D can try 5 * (k + D / 30 s) wrong PINs at most
(`VisitsRateBound`), and k connections at one clock reading do try 5 * k (`VisitsRateAttained`).

## Model

| member | source | states |
|---|---|---|
| Protocol.HeaderRoundTrip | native/core/src/protocol.cpp:6-23 | Parsing an encoded header gives it back whatever follows it, and succeeds exactly for the right magic and version |
| Protocol.ParsedHeaderReencodes | native/core/src/protocol.cpp:14-23 | A datagram whose header is accepted begins with the encoding of that header |
| Protocol.SerializeHeader | native/core/src/protocol.cpp:6-12 | Fails exactly on a null or short buffer; otherwise writes 34 bytes and leaves the rest |
| Protocol.DeserializeHeader | native/core/src/protocol.cpp:14-23 | Succeeds exactly when the buffer holds a whole header with the right magic and version, and returns that header |
| Protocol.HeaderLayout | native/core/include/veyra/protocol.h:61-76 | Every field lies at its offset of the packed struct, byte i of it being the field divided by 256^i, modulo 256 |
| Protocol.PacketPrefix | native/core/include/veyra/protocol.h:10-11 | On the wire every packet begins with the bytes 52 59 45 56 01 |
| Crypto.DeriveMirrored | native/core/src/crypto.cpp:180-236 | Server and client of one exchange derive together or fail together, and then each transmits with what the other receives with, whichever public key is smaller |
| Crypto.DecryptInvertsEncrypt | native/core/src/crypto.cpp:251-320 | With mirrored keys, what one side seals the other opens to the same bytes; the tag adds 16 |
| Crypto.NonceInjective | native/core/src/crypto.cpp:239-249 | Under one salt, different sequence numbers give different nonces |
| Crypto.LawsAreConsistent | native/core/src/crypto.cpp:142-320 | The assumptions made of the primitives can be met, by ones that expand the directions differently and always give keys |
| Crypto.InfoBinds | native/core/src/crypto.cpp:180-195 | Another label or another pair of public keys gives another HKDF info |
| Crypto.DeriveIsScheduled | native/core/src/crypto.cpp:165-222 | A derivation gives keys exactly when secret, extraction and all four expansions succeed; the server then transmits with the expansions under the s2c and ns2c labels and receives with those under c2s and nc2s, the client the other way round, both public keys in lexicographic order after the label |
| Crypto.DirectionsDiffer | native/core/src/crypto.cpp:191-222 | Under primitives that expand the four infos differently, neither key nor salt is used in both directions |
| Crypto.NonceLayout | native/core/src/crypto.cpp:239-249 | A nonce is the 8 bytes of salt and the number, high byte first |
| Crypto.SessionCrypto.DeriveSessionKeys | native/core/src/crypto.cpp:142-237 | The object holds this exchange's keys on success and no usable keys on failure, never old ones |
| Crypto.SessionCrypto.Encrypt | native/core/src/crypto.cpp:251-281 | Seals under the transmit key and nonce, or fails without keys |
| Crypto.SessionCrypto.Decrypt | native/core/src/crypto.cpp:283-320 | Opens under the receive key and nonce, or fails without keys, on short input or on a bad tag |
| ReplayFilter.StepRefines | native/core/src/packetizer.cpp:16-47 | The bitmap step accepts exactly the numbers that are new and less than 64 behind the largest accepted, and goes on remembering exactly those |
| ReplayFilter.RunDecidesBySet | native/core/src/packetizer.cpp:16-47 | Every call of every run from a new filter decides by the set rule of section 3.4.3 of RFC 4303 on the numbers accepted before it |
| ReplayFilter.NeverAcceptedTwice | native/core/src/packetizer.cpp:16-47 | No run accepts a number twice |
| ReplayFilter.ReplayFilter.Accept | native/core/src/packetizer.cpp:16-47 | The updated fields represent the accepted set plus the number exactly when the call returns true |
| Packetizer.PiecesIsCeiling | native/core/src/packetizer.cpp:75 | The rounding division counts the pieces a frame is cut into |
| Packetizer.ChunkIsSlice | native/core/src/packetizer.cpp:77-83 | Piece i is the slice at offset i times the payload size |
| Packetizer.FragmentsRebuildFrameIff | native/core/src/packetizer.cpp:72-83 | The fragments sent, joined in order, are the frame if and only if it fits in 65535 of them |
| Packetizer.FragmentPacketParses | native/core/src/packetizer.cpp:95-127 | A packet is at most 1200 bytes, exactly header plus announced payload, and parses back to the header it was built from |
| Packetizer.VideoHeaderFields | native/core/src/packetizer.cpp:81-106 | The header of a fragment: its flags, stream, ids, time, position and count |
| Packetizer.PacketsAreFull | native/core/src/packetizer.cpp:72-109 | Every packet but the last of a frame is 1200 bytes long |
| Packetizer.FullBatch | native/core/src/packetizer.cpp:77-128 | When sealing succeeds, packet k is fragment k under the k-th consecutive sequence number |
| Packetizer.BatchIsFragments | native/core/src/packetizer.cpp:77-128 | Whatever fails to seal, every packet sent is a fragment numbered by its position |
| Packetizer.EncryptedConsecutive | native/core/src/packetizer.cpp:111-127 | Over any interleaving of video and audio, successful or not, the numbers handed to Encrypt are consecutive modulo 2^32 |
| Packetizer.SealCallsCounts | native/core/src/packetizer.cpp:72-187 | Encrypt is called once per fragment of each frame and once per audio payload of a legal size, whether or not it succeeds |
| Packetizer.NoncesDistinctIff | native/core/src/packetizer.cpp:111-186 | No nonce repeats under one key over any such run if and only if its fragments and legal audio payloads number at most 2^32 |
| Packetizer.Packetizer.PacketizeFrame | native/core/src/packetizer.cpp:60-131 | The fragment loop produces the frame's packets and advances the shared counter once per fragment |
| Packetizer.Packetizer.PacketizeAudio | native/core/src/packetizer.cpp:133-187 | One packet or none; the counter advances exactly on an attempt |
| Sealing.AdmittedIff | native/core/src/packetizer.cpp:212-254 | A datagram is admitted if and only if its header parses, its payload fits, its stream is 0 or 1, and nobody encrypts or the payload opens under the receive key, the receive salt with the number in the header, and the header bytes |
| Sealing.FragmentIsSealed | native/core/src/packetizer.cpp:93-127 | The packet of a fragment is its header, then its piece sealed under the transmit key, the transmit salt with the number in that header, and those header bytes; it is missing exactly when that fails |
| Sealing.AudioIsSealed | native/core/src/packetizer.cpp:159-186 | The same of an audio payload |
| Sealing.AudioNumbering | native/core/src/packetizer.cpp:139-186 | An audio payload takes one number, sealed or not, unless its size is refused |
| Sealing.AudioAdmittedIff | native/core/src/packetizer.cpp:133-187 | An audio packet is admitted, with the very payload, id, time and number that were handed in, if and only if neither peer is armed or both are and the receiver has keys |
| Sealing.SealedNoncesDistinctIff | native/core/src/packetizer.cpp:111-186 | Every packet of an armed session, video or audio, was sealed under the nonce of the number in its own header; no two share a nonce while the fragments and legal audio payloads number at most 2^32, and if none fails to seal, exactly as long |
| Sealing.OnlyListedSealed | native/core/src/packetizer.cpp:111-186 | A run seals under no other numbers than those it records as handed to Encrypt: primitives that seal alike under their nonces give the same packets and failures |
| Reassembler.RunConcat | native/core/src/packetizer.cpp:212-341 | A run may be cut anywhere: frames, complaints and state of the parts compose |
| Reassembler.FrameReassembler.PushPacket | native/core/src/packetizer.cpp:212-341 | New state, result and callbacks of one datagram are those of the step function |
| Reassembler.FrameReassembler.EraseUpTo | native/core/src/packetizer.cpp:324-327 | Erasing from the front of the ordered map leaves exactly the newer frames |
| Reassembler.FrameReassembler.SetCrypto | native/core/src/packetizer.cpp:199-204 | Arming forgets replay history and session pin and keeps pending fragments |
| Reassembler.FrameReassembler.Reset | native/core/src/packetizer.cpp:343-350 | Everything but key and expected session id is as new |
| ReassemblerInvariants.InvFromFresh | native/core/src/packetizer.cpp:273-350 | After every run of pushes, arming, pinning and resets on any bytes: at most 16 pending frames, fragment count equal to the fragments held and below a positive total, only keyframes pending while waiting |
| ReassemblerInvariants.OrderedFromFresh | native/core/src/packetizer.cpp:281-350 | After every run of calls on any bytes, what is pending below id 2^31 is newer than the last emitted frame of such an id, and the replay filter stands for the set of the numbers accepted |
| ReassemblerInvariants.FirstFrameIsKeyframe | native/core/src/packetizer.cpp:273-333 | The first frame emitted after construction or Reset is a keyframe, whatever was sent or re-keyed in between |
| ReassemblerInvariants.FramesIncrease | native/core/src/packetizer.cpp:281-333 | With ids below 2^31, emitted ids strictly increase over every run, and only newer frames stay pending |
| ReassemblerInvariants.PinNeverMoves | native/core/src/packetizer.cpp:264-271 | Over every run of packets the session pin never moves once set, and an unset one is taken from an admitted packet |
| ReassemblerInvariants.ForeignPacketIsIdle | native/core/src/packetizer.cpp:269-271 | Once pinned, a packet of another session has no effect beyond committing its number |
| ReassemblerInvariants.EntryAfterPush | native/core/src/packetizer.cpp:285-298 | A pending entry is described by the packet that opened it and holds the first copy of each fragment: one packet leaves it, adds one fragment under a new index, or opens it |
| ReassemblerInvariants.EvictionTakesOldest | native/core/src/packetizer.cpp:335-338 | The cap costs at most one pending frame, the oldest, and touches no other |
| ReassemblerInvariants.SentinelFrameCompletesIff | native/core/src/packetizer.cpp:286-301 | A frame with id 0 is recounted by every packet: it is complete if and only if the packet announces one fragment and brings an index not yet held |
| ReassemblerInvariants.SentinelFrameNeverEmitted | native/core/src/packetizer.cpp:286-333 | Over every run, a frame with id 0 and more than one fragment never comes out |
| ReassemblerInvariants.OlderFrameEmittedIff | native/core/src/packetizer.cpp:281-284 | A fresh one-fragment packet of an older frame is emitted after newer frames if and only if it is 2^31 - 1 or more ids behind the last one |
| ReassemblerInvariants.RestartIsAnew | native/core/src/packetizer.cpp:343-350 | Whatever a receiver went through, every run of calls after Reset emits the frames that a receiver constructed with that key would |
| ReassemblerInvariants.RestartedRunIsAnew | native/core/src/packetizer.cpp:343-350 | Every run of datagrams after Reset has the frames and the missing-keyframe callbacks of a new receiver |
| ReassemblerInvariants.RearmedTakesAny | native/core/src/packetizer.cpp:199-204 | After arming, the first admitted packet pins its session whatever its number, and is refused only for want of a keyframe or as stale |
| Integrity.FragmentAdmitted | native/core/src/packetizer.cpp:93-127 | Sealing, framing, parsing and opening give back the fragment, and with matching keys the receiver admits it |
| Integrity.AdmitIgnoresTail | native/core/src/packetizer.cpp:212-254 | Bytes after the announced payload change nothing |
| Integrity.RelayIsGenuine | native/core/src/packetizer.cpp:212-254 | A network that only loses, duplicates and reorders lets nothing but genuine packets be admitted, keyed or not |
| Integrity.UnforgedIsGenuine | native/core/src/packetizer.cpp:231-254 | With keys and unforgeability on the run, whatever is admitted was sent, however much else is injected |
| Integrity.CompleteIsFrame | native/core/src/packetizer.cpp:300-319 | An entry of genuine fragments whose count reaches the total holds all of them and joins to the sent frame |
| Integrity.EndToEndIntegrity | native/core/src/packetizer.cpp:60-341 | Over loss, duplication, reordering and injection, from any state that holds no foreign fragments under the ids of sent frames, every emitted frame is a sent frame in id, timestamp, key flag and every byte, ids strictly increasing, so none twice |
| Integrity.PendingForgeryEmerges | native/core/src/packetizer.cpp:199-204 | An instance, from a new receiver: a first fragment forged before arming and the genuine second one come out as one frame, which is the sent one exactly if the forged bytes are |
| Completeness.FrameEmittedIffWithinWindow | native/core/src/packetizer.cpp:256-338 | One frame numbered above all that was accepted, delivered completely in some order, to a receiver in any reachable state pinned to no other session, whatever it holds under other ids: it comes out if and only if the keyframe gate and the stale test let it pass, it has one fragment or fewer than sixteen newer frames are pending, and no missing packet was overtaken by one numbered 64 or more above it |
| Completeness.SmallFrameAnyOrder | native/core/src/packetizer.cpp:36-46 | Any order of a frame of at most 64 fragments meets that condition |
| Completeness.SendOrderAnySize | native/core/src/packetizer.cpp:24-34 | Send order meets it for every size |
| Completeness.LosslessDeliveryIsComplete | native/core/src/packetizer.cpp:60-333 | A lossless frame-by-frame delivery emits exactly the sent frames from the first keyframe on, in order, with one missing-keyframe callback per packet before it |
| Completeness.StreamDelivered | native/core/src/packetizer.cpp:60-338 | A lossless frame-by-frame delivery to a receiver in any such state, with nothing foreign held under the ids of the stream, up to the last sequence number: exactly the frames that it is open for and has room for come out, in order, with one missing-keyframe callback per packet before the keyframe waited for |
| Completeness.AllDeliveredIff | native/core/src/packetizer.cpp:273-338 | Those are all the frames if and only if the receiver is open for the first one and has room for each |
| Wraparound.StreamCompleteIff | native/core/src/packetizer.cpp:16-127 | Delivered as it was sent to a receiver that would take every frame, the whole stream comes out if and only if sequence number plus number of packets is at most 2^32 |
| Wraparound.WrappedAreIdle | native/core/src/packetizer.cpp:16-47 | Once the last sequence number has been accepted, no run of packets with numbers up to 2^32 - 65 has any effect |
| Survival.FrameEmittedIff | native/core/src/packetizer.cpp:256-341 | On any run of genuine datagrams, from any reachable state pinned to no other session, with anything held under the frame's id that is described as the frame is: a frame with that id comes out if and only if every fragment is held or arrives fresh while the receiver is open, until then no newer frame comes out and, unless it has one fragment only, never are sixteen newer ones pending |
| Survival.HeldFragmentsEmerge | native/core/src/packetizer.cpp:199-333 | What comes out then has the held pieces in the place of the sent ones, and is the sent frame if and only if they join to its data |
| Survival.FrameSurvivesLoss | native/core/src/packetizer.cpp:256-341 | In terms of arrivals alone: such a frame comes out if, by the time its packets are in, at most 15 newer frames have begun to arrive and each of them still lacks a fragment, whatever older frames lost |
| Leftovers.FillersFill | native/core/src/packetizer.cpp:285-338 | Unkeyed first fragments of keyframes under different ids each add one pending frame, up to sixteen, and emit nothing |
| Leftovers.FillersExist | native/core/src/packetizer.cpp:212-254 | Bare headers are such fragments: an unkeyed receiver admits any number of them, for every bound that leaves room for the ids |
| Leftovers.FullReceiverStarves | native/core/src/packetizer.cpp:199-338 | With sixteen newer frames pending and every keyframe of the stream in several fragments, a waiting receiver emits nothing on any run of genuine datagrams |
| Leftovers.OlderStreamUnseen | native/core/src/packetizer.cpp:281-284 | On any run of genuine datagrams only frames numbered above the last emitted id come out |
| TraceInvariance.CopyIsRedundant | native/core/src/packetizer.cpp:256-260 | A later copy of a byte-identical packet is redundant |
| TraceInvariance.DeletionInvariance | native/core/src/packetizer.cpp:212-260 | Deleting any inadmissible packets and any packets whose number an earlier admitted one carried changes neither frames, callbacks nor state |
| JitterBuffer.InvAlways | native/core/src/jitter_buffer.cpp:16-89 | Over every run of pushes, pops, statistics and flushes: sorted by timestamp, within the cap, delay within its limits, and admitted frames are popped, queued, dropped and flushed ones as multisets |
| JitterBuffer.LeavesOldestFirst | native/core/src/jitter_buffer.cpp:31-68 | What is popped or dropped is no newer than anything that stays |
| JitterBuffer.AgedFrameLeaves | native/core/src/jitter_buffer.cpp:55-77 | After every run, a head frame older than the configured maximum delay leaves at the next poll |
| JitterBuffer.ReleasedIff | native/core/src/jitter_buffer.cpp:49-68 | In every state, the head leaves at a poll if and only if it has been held for the target delay, to the nanosecond, or the queue is half full; otherwise nothing changes |
| JitterBuffer.TargetReaches | native/core/src/jitter_buffer.cpp:70-77 | Statistics bring the target to k ms or more exactly when minimum delay plus 2 * jitter plus 20 * loss is at least k, within the limits |
| JitterBuffer.TargetGrows | native/core/src/jitter_buffer.cpp:70-77 | More jitter or more loss never gives a lower target |
| JitterBuffer.TargetOverRuns | native/core/src/jitter_buffer.cpp:6-14 | Over every run the target is the minimum until the first statistics, and then that of the last ones |
| JitterBuffer.WaitingIff | native/core/src/jitter_buffer.cpp:19-27 | Over every run the buffer waits exactly until a keyframe is pushed after construction or the last flush |
| JitterBuffer.PushOutcome | native/core/src/jitter_buffer.cpp:16-47 | After every run: a frame before the first keyframe asks for one and leaves no trace; any other is queued behind all earlier timestamps and in front of all others, and the head is dropped for it exactly when the queue is full |
| JitterBuffer.AdaptiveJitterBuffer.PushFrame | native/core/src/jitter_buffer.cpp:16-47 | Gate, overflow loop and sorted insertion, keeping the invariant |
| JitterBuffer.AdaptiveJitterBuffer.PopNextFrame | native/core/src/jitter_buffer.cpp:49-68 | Releases the head exactly when it is old enough or the queue is half full |
| JitterBuffer.AdaptiveJitterBuffer.UpdateNetworkStats | native/core/src/jitter_buffer.cpp:70-77 | Clamps and truncates the target delay and changes nothing else |
| Session.EmittedByReassembler | native/core/src/session.cpp:173-178 | The pipeline behind it does not disturb the reassembler |
| Session.PipelineIsPrefix | native/core/src/session.cpp:189-199 | With increasing timestamps the callback sees a prefix of the emitted frames, the rest is queued in order, nothing overflows, and at most half the cap less one is withheld, whatever the clock reads |
| Session.PipelineConserves | native/core/src/session.cpp:189-199 | Whatever the timestamps and the clock, nothing overflows, no emitted frame is lost or doubled before the callback, and at most half the cap less one is withheld |
| Session.SessionWithholdsFour | native/core/src/session.cpp:23-28 | In the session's configuration that is four frames |
| Session.FirstFrameWaits | native/core/src/session.cpp:189-199 | In a new session the first keyframe reaches the callback with the datagram that completes it if and only if 20 ms pass between push and poll |
| Session.SessionDeliversSentFrames | native/core/src/session.cpp:14-28 | From sender to callback: only sent frames, unchanged, in order, none twice, a keyframe first, at most four behind the reassembler |
| Session.StoppedIsAnew | native/core/src/session.cpp:66-78 | Every run after StopSession emits and delivers what a new session does |
| Session.VeyraSession.OnPacketReceived | native/core/src/session.cpp:173-199 | One datagram through both stages |
| Session.VeyraSession.StopSession | native/core/src/session.cpp:66-78 | A running session is left as new but for the key, the drop count and an unpinned session id; an idle one is untouched |
| Pairing.SameAsciiIsEquality | apps/veyracam/android/app/src/main/kotlin/com/veyra/cam/service/PairingManager.kt:68-100 | Comparing US-ASCII encodings against a PIN or token is string equality |
| Pairing.InvAlways | apps/veyracam/android/app/src/main/kotlin/com/veyra/cam/service/PairingManager.kt:38-110 | Over every run of calls a token exists exactly in state PAIRED, and a PIN in every state but IDLE |
| Pairing.LockoutRateBound | apps/veyracam/android/app/src/main/kotlin/com/veyra/cam/service/PairingManager.kt:39-90 | In every window without reset or success, from any state, at most five wrong PINs per started 30 seconds, whichever way a lockout is left |
| Pairing.ShownPinVerdict | apps/veyracam/android/app/src/main/kotlin/com/veyra/cam/service/PairingManager.kt:59-90 | While a PIN is shown, OK answers that PIN alone, issues the token and clears the counter; any other input is counted and from the fifth on locks for 30 seconds |
| Pairing.LockoutEndsIff | apps/veyracam/android/app/src/main/kotlin/com/veyra/cam/service/PairingManager.kt:38-90 | After the fifth wrong PIN every call is refused without effect until 30 seconds later, and from then on the shown PIN is accepted; a wrong one is then the first of five, but after a new start the first wrong one locks again |
| Pairing.StartShows | apps/veyracam/android/app/src/main/kotlin/com/veyra/cam/service/PairingManager.kt:38-48 | Outside a lockout, starting shows the drawn PIN and revokes the token, the counter going on |
| Pairing.NothingToVerify | apps/veyracam/android/app/src/main/kotlin/com/veyra/cam/service/PairingManager.kt:50-66 | With no PIN out, or once paired, verifying changes nothing |
| Pairing.PairingManager.StartPairing | apps/veyracam/android/app/src/main/kotlin/com/veyra/cam/service/PairingManager.kt:38-48 | Refused during a lockout; otherwise a new PIN and no token, attempts uncleared |
| Pairing.PairingManager.VerifyPin | apps/veyracam/android/app/src/main/kotlin/com/veyra/cam/service/PairingManager.kt:50-90 | Result and new state of one attempt |
| NativeSender.FrameIdsCoveredIff | apps/veyracam/android/app/src/main/cpp/veyra_jni_bridge.cpp:110-117 | The frame counter gives strictly increasing ids, in the ordered range for 2^31 - 1 frames; the receiver's stale test recognises every late packet of any frame not newer than the last emitted one if and only if there are no more frames than that |
| NativeSender.NumberedCarries | apps/veyracam/android/app/src/main/cpp/veyra_jni_bridge.cpp:110-117 | The frames handed on are the non-empty encoder outputs in order, with their data, time and keyframe mark |
| NativeSender.PhoneKeysScheduled | apps/veyracam/android/app/src/main/cpp/veyra_jni_bridge.cpp:83-108 | A well-formed key completes a round exactly when the schedule can be carried out; the packetizer then holds the keys of the server role, and a failure drops the round |
| NativeSender.CompletionNeedsRound | apps/veyracam/android/app/src/main/cpp/veyra_jni_bridge.cpp:83-91 | Without a round, or with a key that is not 32 bytes long, completing changes nothing |
| NativeSender.BegunRoundSendsAsBefore | apps/veyracam/android/app/src/main/cpp/veyra_jni_bridge.cpp:72-91 | Beginning a round leaves the packetizer as it was |
| NativeSender.ArmedStaysArmed | apps/veyracam/android/app/src/main/cpp/veyra_jni_bridge.cpp:72-108 | Over every sequence of rounds, a packetizer that was armed never sends in the clear again |
| NativeSender.NativeSenderContext.BeginPairing | apps/veyracam/android/app/src/main/cpp/veyra_jni_bridge.cpp:72-79 | A new round has its own key object and leaves the packetizer's alone |
| NativeSender.NativeSenderContext.CompletePairing | apps/veyracam/android/app/src/main/cpp/veyra_jni_bridge.cpp:81-108 | The packetizer is armed exactly on success; a failure drops the round, and the packetizer's keys if it shared them |
| NativeSender.NativeSenderContext.SendVideoNal | apps/veyracam/android/app/src/main/cpp/veyra_jni_bridge.cpp:110-132 | An empty encoder output is neither counted nor sent; any other is the next frame |
| PairingServer.DispatchIsEarned | apps/veyracam/android/app/src/main/kotlin/com/veyra/cam/transport/UdpTransport.kt:66-148 | On every message sequence, a command is dispatched only after a response with this connection's PIN and an accepted key, and only with the very token issued for it |
| PairingServer.EveryVisitGetsPin | apps/veyracam/android/app/src/main/kotlin/com/veyra/cam/transport/UdpTransport.kt:46-72 | Over every sequence of connections each one is given a PIN: closing resets the manager, lockout included |
| PairingServer.VisitRateBound | apps/veyracam/android/app/src/main/kotlin/com/veyra/cam/transport/UdpTransport.kt:64-152 | On one connection, whatever is sent and whatever state the manager was in, at most five wrong PINs per started 30 seconds |
| PairingServer.VisitsRateBound | apps/veyracam/android/app/src/main/kotlin/com/veyra/cam/transport/UdpTransport.kt:46-152 | Over k connections served one after the other within a time D, at most 5 * (k + D / 30 s) wrong PINs |
| PairingServer.VisitsRateAttained | apps/veyracam/android/app/src/main/kotlin/com/veyra/cam/transport/UdpTransport.kt:46-152 | For every k, some run of k connections at one clock reading tries 5 * k wrong PINs |
| PairingServer.VisitRefusedIff | apps/veyracam/android/app/src/main/kotlin/com/veyra/cam/transport/UdpTransport.kt:66-80 | A connection is refused exactly during a lockout, and then changes nothing; otherwise it gets the PIN, the drawn key and the session id |
| PairingServer.WrongLines | apps/veyracam/android/app/src/main/kotlin/com/veyra/cam/transport/UdpTransport.kt:95-119 | Up to five wrong responses are answered as wrong and counted, change nothing else, and the fifth locks |
| PairingServer.PairsAfterLockoutIff | apps/veyracam/android/app/src/main/kotlin/com/veyra/cam/transport/UdpTransport.kt:64-152 | On a connection that tried five wrong PINs, the right one with an accepted key pairs the client if and only if it comes 30 seconds after the fifth or later; earlier it ends the connection |
| PairingServer.UnusableKeyRefused | apps/veyracam/android/app/src/main/kotlin/com/veyra/cam/transport/UdpTransport.kt:100-110 | The shown PIN is answered with the token exactly when its key is accepted, and is used up either way |
| PairingServer.UnusableKeyEndsPairing | apps/veyracam/android/app/src/main/kotlin/com/veyra/cam/transport/UdpTransport.kt:95-133 | Once it is used up without a key, nothing that is sent has any effect on that connection |
| PairingServer.CommandOutcome | apps/veyracam/android/app/src/main/kotlin/com/veyra/cam/transport/UdpTransport.kt:123-148 | A paired connection dispatches a command if and only if it carries the token, under the code of the native protocol, and answers hello alone |
| PairingServer.ControlConnection.HandleLine | apps/veyracam/android/app/src/main/kotlin/com/veyra/cam/transport/UdpTransport.kt:85-152 | State, replies and dispatch of one line |
| PairingServer.ControlConnection.Accept | apps/veyracam/android/app/src/main/kotlin/com/veyra/cam/transport/UdpTransport.kt:66-80 | Challenge with a fresh key, or refusal while locked out |
| PairingClient.ServiceManager.OnTcpControlMessage | native/windows/core/service_manager.cpp:159-188 | Each message type goes to its handler; any other changes nothing |
| PairingClient.ServiceManager.HandlePairingChallenge | native/windows/core/service_manager.cpp:190-249 | Acts only on the first usable challenge: derives as client, arms and pins the reassembler, answers with PIN and public key |
| PairingClient.ServiceManager.HandlePairingResult | native/windows/core/service_manager.cpp:251-280 | Error, missing token and token each lead to their state; a token starts the stream with commands that carry it |
| PairingClient.ClientKeysScheduled | native/windows/core/service_manager.cpp:190-249 | A well-formed challenge is answered, with the PIN and the drawn key, exactly when one is awaited and the schedule can be carried out; the reassembler then holds the keys of the client role, an empty replay history and the announced session if it is not 0 |
| PairingClient.TokenPairs | native/windows/core/service_manager.cpp:268-280 | A token, in any phase, pairs the client, which sends startStream and hello with it |
| PairingClient.DisconnectedIsSilent | native/windows/core/service_manager.cpp:138-188 | A disconnected client sends nothing, and of all messages only a token makes it send again |
| PairingClient.RefusedClientStops | native/windows/core/service_manager.cpp:251-261 | An error stops the stream and drops the keys, but not those of the reassembler |
| PairingClient.ConnectingForgets | native/windows/core/service_manager.cpp:107-136 | Connecting forgets token and keys, so what still streams sends without a token |
| PairingProtocol.ResponseHandled | apps/veyracam/android/app/src/main/kotlin/com/veyra/cam/transport/UdpTransport.kt:95-121 | The client's response pairs the phone, with mirrored keys, exactly when the typed PIN is the one shown |
| PairingProtocol.PairedClientStarts | apps/veyracam/android/app/src/main/kotlin/com/veyra/cam/transport/UdpTransport.kt:123-148 | The two commands of a client that has just been paired are dispatched as 3 and 1, and the second is answered |
| PairingProtocol.PairingIsMutual | native/windows/core/service_manager.cpp:107-303 | For every client and every interleaving, a paired client faces a paired phone with the same token, matching PIN and mirrored keys; no delivered command with the token was ever refused, and one without was sent before the client was paired |
| PairingProtocol.StreamingClientIsRefused | native/windows/core/service_manager.cpp:107-136 | Connecting leaves the streaming flag: a client that has it set can send a control before it is paired, and the gate refuses it |
| PairingProtocol.NothingRefusedIff | native/windows/core/service_manager.cpp:107-340 | No run refuses a command if and only if the client was not streaming as it connected |
| PairingProtocol.RightPinPairs | native/windows/core/service_manager.cpp:190-280 | Three deliveries after the challenge, the client is paired if and only if the typed PIN was right |
| PairingProtocol.DrainedRunPairsIff | native/windows/core/service_manager.cpp:107-303 | Every interleaving with user commands that delivers all that is sent ends with the client paired if and only if the typed PIN was the one shown |
| PairedMedia.PairedMediaIsGenuine | native/windows/core/service_manager.cpp:223-236 | After any pairing run, with unforgeability under the paired key and no foreign fragments under the ids of the stream, the client's reassembler - in any reachable state - emits only frames the phone sent, unchanged, in order, at most once |
| PairedMedia.PairedMediaIsDelivered | native/windows/core/service_manager.cpp:223-236 | After any pairing run, a lossless delivery of the phone's frames to a client in any such state emits exactly the frames that its reassembler was open for and had room for before it was paired |
| PairedMedia.PairedMediaIsComplete | native/windows/core/service_manager.cpp:223-236 | Those are all frames if and only if the reassembler is open for the first one and has room for each |
| PairedMedia.FilledClientStarves | native/windows/core/service_manager.cpp:223-231 | A client that collected sixteen unkeyed fragments of newer keyframes before it was paired emits nothing of a stream whose keyframes have several fragments, ever |
| PairedMedia.RestartedCounterUnseen | apps/veyracam/android/app/src/main/cpp/veyra_jni_bridge.cpp:110-117 | Of a stream that the phone numbers from 1, a paired client that has emitted id L before emits no frame up to L |
| RingBuffer.FifoAlways | native/core/include/veyra/ring_buffer.h:24-68 | Over every run: what went in is what came out followed by what is inside, never more than Capacity - 1 inside, and pushes are pops plus size plus dropped |
| RingBuffer.FillKeepsLast | native/core/include/veyra/ring_buffer.h:24-38 | An empty ring keeps up to Capacity - 1 items whole, and of more the last Capacity - 1 |
| RingBuffer.DrainGivesBack | native/core/include/veyra/ring_buffer.h:57-68 | Popping as often as there are items gives them back in order |
| RingBuffer.LockFreeRingBuffer.Push | native/core/include/veyra/ring_buffer.h:24-38 | Appends, dropping the oldest of a full ring |
| RingBuffer.LockFreeRingBuffer.Pop | native/core/include/veyra/ring_buffer.h:57-68 | Takes the oldest, or nothing from an empty ring |
| RingBuffer.LockFreeRingBuffer.Size | native/core/include/veyra/ring_buffer.h:74-81 | The number of items inside |
| LineSplitter.FramingIndependentIff | native/windows/network/tcp_control_server.cpp:88-124 | A NUL-free stream delivers exactly its nonempty lines, in order, however it is read, if and only if no line of it can be cut so that a read exceeds the cap |
| LineSplitter.FramingIndependentOfChunking | native/windows/network/tcp_control_server.cpp:88-124 | In particular lines of at most 61441 characters never trip the cap |
| LineSplitter.FeedDeliversLines | native/windows/network/tcp_control_server.cpp:96-124 | For every input, NULs included, a connection that is not dropped has delivered the lines of the C strings read |
| LineSplitter.CanTripIff | native/windows/network/tcp_control_server.cpp:88-113 | Some reads of 1 to 4095 NUL-free characters drop the connection if and only if a line can be followed for more than 65536 characters, all but the last read of them free of newlines |
| LineSplitter.CutUndoesTerminate | native/windows/network/tcp_control_server.cpp:115-123 | Newline-terminated lines are cut into the nonempty ones, in order, and what follows the last newline is kept |
| LineSplitter.CStringStops | native/windows/network/tcp_control_server.cpp:106-107 | A read counts up to its first NUL |
| LineSplitter.ReadLoop | native/windows/network/tcp_control_server.cpp:88-127 | The nested loops deliver what the specification of the read loop says |
| TransportManager.AutoTransportManager.EvaluateAndHandoff | native/core/src/transport_manager.cpp:78-116 | In AUTO mode with an eligible transport, the active one is connected and of least rank, ties to the lowest type, and the result tells a change; otherwise nothing changes |
| TransportManager.EvaluateTwice | native/core/src/transport_manager.cpp:78-116 | An immediate second evaluation never hands off |
| TransportManager.AutoTransportManager.RegisterTransport | native/core/src/transport_manager.cpp:19-29 | Replaces the transport of its type, and becomes active if it is connected and no connected one is |
| TransportManager.AutoTransportManager.SetPreferredTransportMode | native/core/src/transport_manager.cpp:31-40 | A pinned mode activates its transport if connected |
| TransportManager.RankIs | native/core/src/transport_manager.cpp:62-76 | The rank is 10, 20, 30, 50 or 100 by type, plus whole milliseconds and whole fifths of a percent of loss |
| TransportManager.WireYieldsIff | native/core/src/transport_manager.cpp:62-76 | An idle wireless LAN outranks a lossless wire exactly from 11 ms on |
| TransportManager.WireFirst | native/core/src/transport_manager.cpp:62-76 | With equal metrics the order is wire, LAN, Wi-Fi Direct, Bluetooth |

## Left out

- Threads, mutexes and memory orders: every method is one atomic step; the ring buffer is sequential.
- Audio reassembly: the receiver files audio packets under video frame ids, so no frame-level audio statement fits; audio is followed up to admission.
- Null pointers and the size-only failure checks on buffers that the callers allocate, except in the header (de)serialiser.
- JSON text, base64, sockets, JNI and the accept and connect calls: messages are modelled as parsed, keys as decoded bytes.
- mbedTLS internals and key pair generation failures; `Crypto.Primitives` stands for the former.
- Rounding of float metrics and statistics, and NaN: reals with truncation.
- Overflow of the 64-bit drop counters and of the pairing manager's 32-bit attempt counter.
- ServiceManager's own wiring, which decodes each frame at once and fills a jitter buffer that it never polls.
- FrameEmittedIff: does not say what becomes of an entry that foreign packets opened under the frame's id with another fragment count, timestamp or key flag.
- LockoutRateBound: is about runs without a reset, since closing a connection resets; VisitsRateBound states what that means across connections.
- InitiateHandoff, telemetry, thermal control, memory pool, camera, encoder, decoder, renderer, virtual camera and all Flutter code: easy members or platform calls.
