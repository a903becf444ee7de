/** The sender: a frame becomes numbered, optionally sealed packets. */
module Packetizer {
  import opened Wrappers
  import opened Bytes
  import opened Protocol
  import opened Crypto

  const SEQUENCES: nat := 0x1_0000_0000
  const MAX_FRAGMENTS: nat := 65535

  datatype VideoFrame = VideoFrame(frameId: uint32, timestampUs: uint64, isKeyframe: bool, data: seq<byte>)

  /** `++` on a 32-bit counter. */
  function Increment(sequence: uint32): uint32 {
    if sequence == SEQUENCES - 1 then 0 else sequence + 1
  }

  /** A 32-bit counter after n increments. */
  function Next(sequence: uint32, n: nat): uint32
    decreases n, sequence
  {
    if n == 0 then sequence else Increment(Next(sequence, n - 1))
  }

  lemma {:induction false} NextNext(sequence: uint32, a: nat, b: nat)
    ensures Next(Next(sequence, a), b) == Next(sequence, a + b)
    decreases b
  {
    if b != 0 { NextNext(sequence, a, b - 1); }
  }

  lemma {:induction false} NextIsModular(sequence: uint32, n: nat) returns (wraps: nat)
    ensures sequence + n == wraps * SEQUENCES + Next(sequence, n)
    decreases n
  {
    wraps := 0;
    if n != 0 {
      wraps := NextIsModular(sequence, n - 1);
      if Next(sequence, n) == 0 { wraps := wraps + 1; }
    }
  }

  lemma NextRepeatsIff(sequence: uint32, a: nat, b: nat)
    requires a < b <= a + SEQUENCES
    ensures Next(sequence, a) == Next(sequence, b) <==> b == a + SEQUENCES
  {
    var i := NextIsModular(sequence, a);
    var j := NextIsModular(sequence, b);
  }

  // ---- Fragmentation ----

  /** Room for plaintext in one packet: an armed sender reserves the tag. */
  function MaxPlaintext(arming: Arming): (m: nat)
    ensures m == 1150 || m == 1166
  {
    if arming.Armed? then MAX_PAYLOAD_SIZE - TAG_SIZE else MAX_PAYLOAD_SIZE
  }

  function Min(a: nat, b: nat): nat { if a <= b then a else b }

  /** How many pieces of at most max bytes a frame is cut into. */
  function Pieces(size: nat, max: nat): (n: nat)
    requires max > 0
    ensures n > 0 <==> size > 0
  {
    if size <= max then Min(size, 1) else 1 + Pieces(size - max, max)
  }

  /** k pieces suffice exactly when k times max bytes do. */
  lemma {:induction false} PiecesAtMost(size: nat, max: nat, k: nat)
    requires max > 0
    ensures Pieces(size, max) <= k <==> size <= k * max
    decreases k
  {
    if k != 0 {
      assert k * max == (k - 1) * max + max;
      assert (k - 1) * max >= 0;
      if size > max { PiecesAtMost(size - max, max, k - 1); }
    }
  }

  /** The source's rounding division counts the pieces. */
  lemma PiecesIsCeiling(size: nat, max: nat)
    requires max > 0
    ensures Pieces(size, max) == (size + max - 1) / max
  {
    var q := (size + max - 1) / max;
    assert q * max <= size + max - 1 < q * max + max;
    PiecesAtMost(size, max, q);
    if q > 0 {
      assert (q - 1) * max == q * max - max;
      PiecesAtMost(size, max, q - 1);
    }
  }

  /** The count that the header carries: truncated to 16 bits. */
  function FragmentCount(size: nat, max: nat): (n: uint16)
    requires max > 0
    ensures n <= Pieces(size, max)
  {
    Pieces(size, max) % 0x1_0000
  }

  /** Piece number i. */
  function Chunk(data: seq<byte>, max: nat, i: nat): (c: seq<byte>)
    requires max > 0 && i < Pieces(|data|, max)
    ensures 0 < |c| <= max
  {
    if i == 0 then data[..Min(max, |data|)] else Chunk(data[max..], max, i - 1)
  }

  lemma SliceOfDrop(data: seq<byte>, k: nat, from: nat, n: nat)
    requires k + from + n <= |data|
    ensures data[k..][from..from + n] == data[k + from..k + from + n]
  {
  }

  lemma {:induction false} ChunkIsSliceAt(data: seq<byte>, max: nat, i: nat, offset: nat)
    requires max > 0 && i < Pieces(|data|, max) && offset == i * max
    ensures offset < |data|
    ensures Chunk(data, max, i) == data[offset..offset + Min(max, |data| - offset)]
    decreases i
  {
    if i != 0 {
      assert offset == (i - 1) * max + max;
      assert offset >= max by { assert (i - 1) * max >= 0; }
      ChunkIsSliceAt(data[max..], max, i - 1, offset - max);
      SliceOfDrop(data, max, offset - max, Min(max, |data| - offset));
    }
  }

  /** Piece i is the slice the source cuts out at offset i * max. */
  lemma ChunkIsSlice(data: seq<byte>, max: nat, i: nat)
    requires max > 0 && i < Pieces(|data|, max)
    ensures i * max < |data|
    ensures Chunk(data, max, i) == data[i * max..i * max + Min(max, |data| - i * max)]
  {
    assert i * max >= 0;
    ChunkIsSliceAt(data, max, i, i * max);
  }

  /** The first n pieces, joined. */
  function Chunks(data: seq<byte>, max: nat, n: nat): (c: seq<byte>)
    requires max > 0 && n <= Pieces(|data|, max)
  {
    if n == 0 then [] else Chunks(data, max, n - 1) + Chunk(data, max, n - 1)
  }

  lemma {:induction false} ChunksFromFront(data: seq<byte>, max: nat, n: nat)
    requires max > 0 && 0 < n <= Pieces(|data|, max)
    ensures |data| > max ==>
              Chunks(data, max, n) == data[..max] + Chunks(data[max..], max, n - 1)
    ensures |data| <= max ==> n == 1 && Chunks(data, max, 1) == data
  {
    if n == 1 {
      assert Chunks(data, max, 1) == Chunks(data, max, 0) + Chunk(data, max, 0);
      assert |data| <= max ==> data[..|data|] == data;
    } else {
      ChunksFromFront(data, max, n - 1);
      assert Chunks(data[max..], max, n - 1)
          == Chunks(data[max..], max, n - 2) + Chunk(data[max..], max, n - 2);
    }
  }

  /** All pieces joined are the data; fewer are shorter. */
  lemma {:induction false} ChunksRebuild(data: seq<byte>, max: nat, n: nat)
    requires max > 0 && n <= Pieces(|data|, max)
    ensures n == Pieces(|data|, max) ==> Chunks(data, max, n) == data
    ensures n < Pieces(|data|, max) ==> |Chunks(data, max, n)| < |data|
    decreases n
  {
    if n != 0 {
      ChunksFromFront(data, max, n);
      if |data| > max {
        ChunksRebuild(data[max..], max, n - 1);
        assert data == data[..max] + data[max..];
      }
    }
  }

  /** The fragments sent, joined in order, are the frame - exactly when it needs at most 65535 of them. */
  lemma FragmentsRebuildFrameIff(data: seq<byte>, max: nat)
    requires max > 0
    ensures Chunks(data, max, FragmentCount(|data|, max)) == data <==> |data| <= 65535 * max
  {
    PiecesAtMost(|data|, max, MAX_FRAGMENTS);
    ChunksRebuild(data, max, FragmentCount(|data|, max));
  }

  // ---- Packets of one frame ----

  function VideoHeader(sessionId: uint32, arming: Arming, f: VideoFrame, i: uint16, sequence: uint32): PacketHeader
    requires i < FragmentCount(|f.data|, MaxPlaintext(arming))
  {
    var max := MaxPlaintext(arming);
    var size := |Chunk(f.data, max, i)|;
    PacketHeader(MAGIC, VERSION,
                 (if f.isKeyframe then FLAG_KEYFRAME else FLAG_NONE) + (if arming.Armed? then FLAG_ENCRYPTED else 0),
                 VIDEO_STREAM, sessionId, f.frameId, sequence, i, FragmentCount(|f.data|, max), f.timestampUs,
                 if arming.Armed? then size + TAG_SIZE else size)
  }

  /** Packet number i of a frame; None when encryption fails. */
  function FragmentPacket(p: Primitives, sessionId: uint32, arming: Arming, f: VideoFrame, i: uint16,
                          sequence: uint32): Option<seq<byte>>
    requires i < FragmentCount(|f.data|, MaxPlaintext(arming))
  {
    var header := HeaderBytes(VideoHeader(sessionId, arming, f, i, sequence));
    var chunk := Chunk(f.data, MaxPlaintext(arming), i);
    if arming.Plain? then Some(header + chunk)
    else
      var box := EncryptWith(p, arming.keys, chunk, sequence, header);
      if box.None? || |box.value| != |chunk| + TAG_SIZE then None else Some(header + box.value)
  }

  /** The packets that the first n fragments of a frame yield when its first one is numbered `sequence`. */
  function FirstPackets(p: Primitives, sessionId: uint32, arming: Arming, f: VideoFrame, sequence: uint32, n: nat)
    : (r: seq<seq<byte>>)
    requires n <= FragmentCount(|f.data|, MaxPlaintext(arming))
    ensures |r| <= n
    decreases n
  {
    if n == 0 then []
    else
      var packet := FragmentPacket(p, sessionId, arming, f, n - 1, Next(sequence, n - 1));
      FirstPackets(p, sessionId, arming, f, sequence, n - 1) + if packet.Some? then [packet.value] else []
  }

  /** `n` sequence numbers from `sequence` on, wrapping. */
  function Numbers(sequence: uint32, n: nat): (r: seq<uint32>)
    ensures |r| == n
    decreases n, sequence
  {
    if n == 0 then [] else Numbers(sequence, n - 1) + [Next(sequence, n - 1)]
  }

  /** Packets produced, the sequence counter afterwards, and the sequence numbers handed to Encrypt. */
  datatype Batch = Batch(packets: seq<seq<byte>>, sequence: uint32, encrypted: seq<uint32>)

  /** The counter advances once per fragment, and an armed sender encrypts under each number. */
  function FrameBatch(p: Primitives, sessionId: uint32, arming: Arming, f: VideoFrame, sequence: uint32): Batch {
    var n := FragmentCount(|f.data|, MaxPlaintext(arming));
    Batch(FirstPackets(p, sessionId, arming, f, sequence, n), Next(sequence, n),
          if arming.Armed? then Numbers(sequence, n) else [])
  }

  /** Every packet of a frame is one of its fragments, numbered by its position. */
  lemma {:induction false} BatchIsFragments(p: Primitives, sessionId: uint32, arming: Arming, f: VideoFrame,
                                            sequence: uint32, n: nat, k: nat)
    returns (j: uint16)
    requires n <= FragmentCount(|f.data|, MaxPlaintext(arming))
    requires k < |FirstPackets(p, sessionId, arming, f, sequence, n)|
    ensures j < n
    ensures FragmentPacket(p, sessionId, arming, f, j, Next(sequence, j))
            == Some(FirstPackets(p, sessionId, arming, f, sequence, n)[k])
    decreases n
  {
    hide FragmentPacket;
    if k < |FirstPackets(p, sessionId, arming, f, sequence, n - 1)| {
      j := BatchIsFragments(p, sessionId, arming, f, sequence, n - 1, k);
    } else {
      j := n - 1;
    }
  }

  /** Encryption never failed on this frame. */
  ghost predicate SealsAll(p: Primitives, sessionId: uint32, arming: Arming, f: VideoFrame, sequence: uint32) {
    forall k :: 0 <= k < FragmentCount(|f.data|, MaxPlaintext(arming)) ==>
      FragmentPacket(p, sessionId, arming, f, k, Next(sequence, k)).Some?
  }

  /** With no failure, packet k is fragment k. */
  lemma {:induction false} FullBatch(p: Primitives, sessionId: uint32, arming: Arming, f: VideoFrame,
                                     sequence: uint32, n: nat)
    requires n <= FragmentCount(|f.data|, MaxPlaintext(arming)) && SealsAll(p, sessionId, arming, f, sequence)
    ensures var packets := FirstPackets(p, sessionId, arming, f, sequence, n);
      && |packets| == n
      && forall k :: 0 <= k < n ==>
           FragmentPacket(p, sessionId, arming, f, k, Next(sequence, k)) == Some(packets[k])
    decreases n
  {
    hide FragmentPacket;
    if n != 0 { FullBatch(p, sessionId, arming, f, sequence, n - 1); }
  }

  lemma VideoHeaderFields(sessionId: uint32, arming: Arming, f: VideoFrame, i: uint16, sequence: uint32)
    requires i < FragmentCount(|f.data|, MaxPlaintext(arming))
    ensures var h := VideoHeader(sessionId, arming, f, i, sequence);
      && h.magic == MAGIC && h.version == VERSION && h.streamId == VIDEO_STREAM && h.sessionId == sessionId
      && h.frameId == f.frameId && h.timestampUs == f.timestampUs && h.sequence == sequence
      && h.fragmentIndex == i && h.fragmentCount == FragmentCount(|f.data|, MaxPlaintext(arming))
      && h.flags == (if f.isKeyframe then 1 else 0) + (if arming.Armed? then 4 else 0)
      && (h.IsKeyframe() <==> f.isKeyframe) && (h.IsEncrypted() <==> arming.Armed?)
      && 0 < h.payloadLength <= MAX_PAYLOAD_SIZE
  {
  }

  /** A packet fits the datagram limit and parses back to the header it was built from. */
  lemma FragmentPacketParses(p: Primitives, sessionId: uint32, arming: Arming, f: VideoFrame, i: uint16,
                             sequence: uint32)
    requires i < FragmentCount(|f.data|, MaxPlaintext(arming))
    requires FragmentPacket(p, sessionId, arming, f, i, sequence).Some?
    ensures var packet := FragmentPacket(p, sessionId, arming, f, i, sequence).value;
            var h := VideoHeader(sessionId, arming, f, i, sequence);
      && HEADER_SIZE < |packet| == HEADER_SIZE + h.payloadLength <= MAX_PACKET_SIZE
      && packet[..HEADER_SIZE] == HeaderBytes(h)
      && ParseHeader(packet) == Some(h)
  {
    var packet := FragmentPacket(p, sessionId, arming, f, i, sequence).value;
    var h := VideoHeader(sessionId, arming, f, i, sequence);
    VideoHeaderFields(sessionId, arming, f, i, sequence);
    assert packet[..HEADER_SIZE] == HeaderBytes(h) && |packet| == HEADER_SIZE + h.payloadLength by {
      hide HeaderBytes;
    }
    hide FragmentPacket, VideoHeader, HeaderBytes;
    HeaderRoundTrip(h, packet[HEADER_SIZE..]);
    assert packet == HeaderBytes(h) + packet[HEADER_SIZE..];
  }

  /** Every video packet but a frame's last is a full datagram of 1200 bytes, whoever is armed. */
  lemma PacketsAreFull(p: Primitives, sessionId: uint32, arming: Arming, f: VideoFrame, i: uint16, sequence: uint32)
    requires i < FragmentCount(|f.data|, MaxPlaintext(arming)) && i + 1 < Pieces(|f.data|, MaxPlaintext(arming))
    requires FragmentPacket(p, sessionId, arming, f, i, sequence).Some?
    ensures |FragmentPacket(p, sessionId, arming, f, i, sequence).value| == 1200
  {
    var max := MaxPlaintext(arming);
    FragmentPacketParses(p, sessionId, arming, f, i, sequence);
    ChunkIsSlice(f.data, max, i);
    ChunkIsSlice(f.data, max, i + 1);
    assert (i + 1) * max == i * max + max;
    hide FragmentPacket, Chunk, FragmentCount, HeaderBytes, ParseHeader;
  }

  // ---- Audio ----

  function AudioHeader(sessionId: uint32, arming: Arming, size: nat, frameId: uint32, timestampUs: uint64,
                       sequence: uint32): PacketHeader
    requires size <= MAX_PAYLOAD_SIZE - TAG_SIZE
  {
    PacketHeader(MAGIC, VERSION, FLAG_AUDIO + (if arming.Armed? then FLAG_ENCRYPTED else 0), AUDIO_STREAM,
                 sessionId, frameId, sequence, 0, 1, timestampUs,
                 if arming.Armed? then size + TAG_SIZE else size)
  }

  /** At most one packet; an empty result with an unchanged counter means the payload was refused. */
  function AudioBatch(p: Primitives, sessionId: uint32, arming: Arming, audio: seq<byte>, frameId: uint32,
                      timestampUs: uint64, sequence: uint32): Batch
  {
    if |audio| > MAX_PAYLOAD_SIZE - TAG_SIZE || (arming.Armed? && audio == []) then Batch([], sequence, [])
    else
      var header := HeaderBytes(AudioHeader(sessionId, arming, |audio|, frameId, timestampUs, sequence));
      if arming.Plain? then Batch([header + audio], Increment(sequence), [])
      else
        var box := EncryptWith(p, arming.keys, audio, sequence, header);
        Batch(if box.None? || |box.value| != |audio| + TAG_SIZE then [] else [header + box.value],
              Increment(sequence), [sequence])
  }

  // ---- Nonces over a whole sending session ----

  datatype Send =
    | Video(frame: VideoFrame)
    | Audio(audio: seq<byte>, frameId: uint32, timestampUs: uint64)

  function SendBatch(p: Primitives, sessionId: uint32, arming: Arming, op: Send, sequence: uint32): Batch {
    match op
    case Video(f) => FrameBatch(p, sessionId, arming, f, sequence)
    case Audio(audio, id, ts) => AudioBatch(p, sessionId, arming, audio, id, ts, sequence)
  }

  /** Any interleaving of video and audio, in call order. */
  function SendAll(p: Primitives, sessionId: uint32, arming: Arming, ops: seq<Send>, sequence: uint32): Batch {
    if ops == [] then Batch([], sequence, [])
    else
      var first := SendBatch(p, sessionId, arming, ops[0], sequence);
      var rest := SendAll(p, sessionId, arming, ops[1..], first.sequence);
      Batch(first.packets + rest.packets, rest.sequence, first.encrypted + rest.encrypted)
  }

  lemma {:induction false} NumbersConcat(sequence: uint32, a: nat, b: nat)
    ensures Numbers(sequence, a) + Numbers(Next(sequence, a), b) == Numbers(sequence, a + b)
    decreases b
  {
    if b != 0 {
      NumbersConcat(sequence, a, b - 1);
      NextNext(sequence, a, b - 1);
    }
  }

  lemma NumbersJoin(sequence: uint32, x: seq<uint32>, y: seq<uint32>)
    requires x == Numbers(sequence, |x|) && y == Numbers(Next(sequence, |x|), |y|)
    ensures x + y == Numbers(sequence, |x + y|)
    ensures Next(Next(sequence, |x|), |y|) == Next(sequence, |x + y|)
  {
    hide Numbers, Next;
    var a, b := |x|, |y|;
    assert |x + y| == a + b;
    NumbersConcat(sequence, a, b);
    NextNext(sequence, a, b);
  }

  lemma {:induction false} NumbersAt(sequence: uint32, n: nat, k: nat)
    requires k < n
    ensures Numbers(sequence, n)[k] == Next(sequence, k)
    decreases n
  {
    if k < n - 1 { NumbersAt(sequence, n - 1, k); }
  }

  lemma SendNumbers(p: Primitives, sessionId: uint32, arming: Arming, op: Send, sequence: uint32)
    requires arming.Armed?
    ensures var b := SendBatch(p, sessionId, arming, op, sequence);
      b.encrypted == Numbers(sequence, |b.encrypted|) && b.sequence == Next(sequence, |b.encrypted|)
  {
    if op.Audio? {
      assert Next(sequence, 0) == sequence && Next(sequence, 1) == Increment(sequence);
      assert Numbers(sequence, 0) == [] && Numbers(sequence, 1) == [sequence];
    }
  }

  lemma SendAllStep(p: Primitives, sessionId: uint32, arming: Arming, ops: seq<Send>, sequence: uint32)
    requires ops != []
    ensures var first := SendBatch(p, sessionId, arming, ops[0], sequence);
            var rest := SendAll(p, sessionId, arming, ops[1..], first.sequence);
            var b := SendAll(p, sessionId, arming, ops, sequence);
      && b.encrypted == first.encrypted + rest.encrypted && b.sequence == rest.sequence
      && |b.encrypted| == |first.encrypted| + |rest.encrypted|
  {
    hide SendBatch;
  }

  /** The numbers handed to Encrypt by any run are consecutive, modulo 2^32. */
  lemma {:induction false} EncryptedConsecutive(p: Primitives, sessionId: uint32, arming: Arming, ops: seq<Send>,
                                                sequence: uint32)
    requires arming.Armed?
    ensures var b := SendAll(p, sessionId, arming, ops, sequence);
      b.encrypted == Numbers(sequence, |b.encrypted|) && b.sequence == Next(sequence, |b.encrypted|)
  {
    if ops == [] {
      assert Numbers(sequence, 0) == [] && Next(sequence, 0) == sequence;
    } else {
      hide SendAll, SendBatch, Next, Numbers;
      SendAllStep(p, sessionId, arming, ops, sequence);
      var first := SendBatch(p, sessionId, arming, ops[0], sequence);
      var rest := SendAll(p, sessionId, arming, ops[1..], first.sequence);
      SendNumbers(p, sessionId, arming, ops[0], sequence);
      EncryptedConsecutive(p, sessionId, arming, ops[1..], first.sequence);
      NumbersJoin(sequence, first.encrypted, rest.encrypted);
    }
  }

  /** The nonces under which a run of sends calls the AEAD. */
  function Nonces(salt: Salt, encrypted: seq<uint32>): (n: seq<seq<byte>>)
    ensures |n| == |encrypted|
  {
    seq(|encrypted|, k requires 0 <= k < |encrypted| => Nonce(salt, encrypted[k]))
  }

  ghost predicate Distinct<T(!new)>(s: seq<T>) {
    forall a, b :: 0 <= a < b < |s| ==> s[a] != s[b]
  }

  lemma NumbersDistinct(salt: Salt, sequence: uint32, n: nat)
    requires n <= SEQUENCES
    ensures Distinct(Nonces(salt, Numbers(sequence, n)))
  {
    var s := Nonces(salt, Numbers(sequence, n));
    forall a, b | 0 <= a < b < |s| ensures s[a] != s[b] {
      NextRepeatsIff(sequence, a, b);
      NumbersAt(sequence, n, a);
      NumbersAt(sequence, n, b);
      if s[a] == s[b] { NonceInjective(salt, Next(sequence, a), Next(sequence, b)); }
    }
  }

  /** What an armed sender seals: one piece per fragment of each frame, and each audio payload of a legal size. */
  function SealCalls(ops: seq<Send>): nat {
    if ops == [] then 0
    else
      var max := MAX_PAYLOAD_SIZE - TAG_SIZE;
      SealCalls(ops[1..]) +
        match ops[0]
        case Video(f) => FragmentCount(|f.data|, max)
        case Audio(audio, _, _) => if 0 < |audio| <= max then 1 else 0
  }

  lemma {:induction false} SealCallsCounts(p: Primitives, sessionId: uint32, arming: Arming, ops: seq<Send>,
                                           sequence: uint32)
    requires arming.Armed?
    ensures |SendAll(p, sessionId, arming, ops, sequence).encrypted| == SealCalls(ops)
  {
    if ops != [] {
      SendAllStep(p, sessionId, arming, ops, sequence);
      var first := SendBatch(p, sessionId, arming, ops[0], sequence);
      assert |first.encrypted| + SealCalls(ops[1..]) == SealCalls(ops);
      hide SendAll, SendBatch, FragmentCount;
      SealCallsCounts(p, sessionId, arming, ops[1..], first.sequence);
    }
  }

  /**
    No nonce repeats under one key, however video and audio interleave and whatever fails to seal: exactly as long
    as the fragments and audio payloads handed in number at most 2^32.
  */
  lemma NoncesDistinctIff(p: Primitives, sessionId: uint32, keys: SessionKeys, ops: seq<Send>, sequence: uint32)
    ensures Distinct(Nonces(keys.txSalt, SendAll(p, sessionId, Armed(Some(keys)), ops, sequence).encrypted))
            <==> SealCalls(ops) <= 0x1_0000_0000
  {
    var e := SendAll(p, sessionId, Armed(Some(keys)), ops, sequence).encrypted;
    EncryptedConsecutive(p, sessionId, Armed(Some(keys)), ops, sequence);
    SealCallsCounts(p, sessionId, Armed(Some(keys)), ops, sequence);
    hide SendAll, SealCalls;
    if |e| <= SEQUENCES {
      NumbersDistinct(keys.txSalt, sequence, |e|);
    } else {
      var n := Nonces(keys.txSalt, e);
      NextRepeatsIff(sequence, 0, SEQUENCES);
      NumbersAt(sequence, |e|, 0);
      NumbersAt(sequence, |e|, SEQUENCES);
      assert e[0] == Next(sequence, 0) == Next(sequence, SEQUENCES) == e[SEQUENCES];
      assert n[0] == n[SEQUENCES];
    }
  }

  // ---- The mutable packetizer ----

  class Packetizer {
    const primitives: Primitives
    const sessionId: uint32
    var packetSequence: uint32
    var crypto: SessionCrypto?
    ghost var encrypted: seq<uint32> // sequence numbers handed to Encrypt so far

    ghost predicate Valid()
      reads this
    {
      crypto != null ==> crypto.primitives == primitives
    }

    constructor (p: Primitives, sessionId: uint32)
      ensures Valid() && primitives == p && this.sessionId == sessionId
      ensures packetSequence == 0 && Mode() == Plain && encrypted == []
    {
      primitives, this.sessionId := p, sessionId;
      packetSequence, crypto, encrypted := 0, null, [];
    }

    function Mode(): Arming
      reads this`crypto, crypto
    {
      if crypto == null then Plain else Armed(crypto.Keys())
    }

    method SetCrypto(c: SessionCrypto?)
      requires c != null ==> c.primitives == primitives
      modifies this`crypto
      ensures Valid() && crypto == c
    {
      crypto := c;
    }

    method PacketizeFrame(f: VideoFrame) returns (packets: seq<seq<byte>>)
      requires Valid()
      modifies this`packetSequence, this`encrypted
      ensures Valid()
      ensures var b := FrameBatch(primitives, sessionId, Mode(), f, old(packetSequence));
        && packets == b.packets
        && packetSequence == b.sequence
        && encrypted == old(encrypted) + b.encrypted
    {
      hide FragmentPacket;
      packets := [];
      if f.data == [] {
        return;
      }
      var maxPlaintext := if crypto != null then MAX_PAYLOAD_SIZE - TAG_SIZE else MAX_PAYLOAD_SIZE;
      var fragmentCount := CountFragments(|f.data|, maxPlaintext);
      ghost var first := packetSequence;
      ghost var mode := Mode();
      var i := 0;
      while i < fragmentCount
        invariant 0 <= i <= fragmentCount && Mode() == mode
        invariant packets == FirstPackets(primitives, sessionId, mode, f, first, i)
        invariant packetSequence == Next(first, i)
        invariant encrypted == old(encrypted) + if crypto != null then Numbers(first, i) else []
      {
        var packet := SealFragment(f, maxPlaintext, fragmentCount, i);
        packets := packets + if packet.Some? then [packet.value] else [];
        packetSequence := Increment(packetSequence);
        i := i + 1;
      }
    }

    /** Ceiling division, cast to 16 bits. */
    static method CountFragments(size: nat, maxPlaintext: nat) returns (n: uint16)
      requires maxPlaintext > 0
      ensures n == FragmentCount(size, maxPlaintext)
    {
      PiecesIsCeiling(size, maxPlaintext);
      n := (size + maxPlaintext - 1) / maxPlaintext % 0x1_0000;
    }

    /** The loop body: header first, since its bytes are the additional authenticated data. */
    method SealFragment(f: VideoFrame, maxPlaintext: nat, fragmentCount: uint16, i: uint16)
      returns (packet: Option<seq<byte>>)
      requires Valid() && maxPlaintext == MaxPlaintext(Mode())
      requires i < fragmentCount == FragmentCount(|f.data|, maxPlaintext)
      modifies this`encrypted
      ensures packet == FragmentPacket(primitives, sessionId, Mode(), f, i, packetSequence)
      ensures encrypted == old(encrypted) + if crypto != null then [packetSequence] else []
    {
      hide HeaderBytes, Chunk, FragmentCount;
      ChunkIsSlice(f.data, maxPlaintext, i);
      var offset := i * maxPlaintext;
      var chunk := f.data[offset..offset + Min(maxPlaintext, |f.data| - offset)];
      var flags := if f.isKeyframe then FLAG_KEYFRAME else FLAG_NONE;
      var payloadLen := |chunk|;
      if crypto != null {
        payloadLen := |chunk| + TAG_SIZE;
        flags := flags + FLAG_ENCRYPTED;
      }
      var header := HeaderBytes(PacketHeader(MAGIC, VERSION, flags, VIDEO_STREAM, sessionId, f.frameId,
                                             packetSequence, i, fragmentCount, f.timestampUs, payloadLen));
      if crypto != null {
        var box := crypto.Encrypt(chunk, packetSequence, header);
        encrypted := encrypted + [packetSequence];
        packet := if box.Some? && |box.value| == |chunk| + TAG_SIZE then Some(header + box.value) else None;
      } else {
        packet := Some(header + chunk);
      }
    }

    /** None is the source's empty packet. */
    method PacketizeAudio(audio: seq<byte>, frameId: uint32, timestampUs: uint64) returns (packet: Option<seq<byte>>)
      requires Valid()
      modifies this`packetSequence, this`encrypted
      ensures Valid()
      ensures var b := AudioBatch(primitives, sessionId, Mode(), audio, frameId, timestampUs, old(packetSequence));
        && b.packets == (if packet.Some? then [packet.value] else [])
        && packetSequence == b.sequence
        && encrypted == old(encrypted) + b.encrypted
    {
      if |audio| > MAX_PAYLOAD_SIZE - TAG_SIZE {
        return None;
      }
      var flags := FLAG_AUDIO;
      var payloadLen := |audio|;
      if crypto != null {
        if audio == [] { return None; }
        payloadLen := |audio| + TAG_SIZE;
        flags := flags + FLAG_ENCRYPTED;
      }
      var header := HeaderBytes(PacketHeader(MAGIC, VERSION, flags, AUDIO_STREAM, sessionId, frameId,
                                             packetSequence, 0, 1, timestampUs, payloadLen));
      if crypto != null {
        var box := crypto.Encrypt(audio, packetSequence, header);
        encrypted := encrypted + [packetSequence];
        packet := if box.Some? && |box.value| == |audio| + TAG_SIZE then Some(header + box.value) else None;
      } else {
        packet := Some(header + audio);
      }
      packetSequence := Increment(packetSequence);
    }
  }
}
