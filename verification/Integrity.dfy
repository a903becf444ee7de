/**
  End-to-end integrity: over a channel that loses, duplicates, reorders and injects, every frame that comes
  out is a frame that was sent, byte for byte, at most once and in order.
*/
module Integrity {
  import opened Wrappers
  import opened Bytes
  import opened Protocol
  import opened Crypto
  import opened Packetizer
  import Filter = ReplayFilter
  import opened Reassembler
  import opened ReassemblerInvariants

  // ---- What the sender does ----

  /** A frame that the fragment count can describe, under an id that the order theorems cover. */
  ghost predicate Sendable(arming: Arming, f: VideoFrame) {
    Numbered(f.frameId) && 0 < |f.data| <= MAX_FRAGMENTS * MaxPlaintext(arming)
  }

  /** Ids as SendVideoNal's counter gives them: increasing. */
  ghost predicate SendableStream(arming: Arming, frames: seq<VideoFrame>) {
    (forall i :: 0 <= i < |frames| ==> Sendable(arming, frames[i])) && StrictlyIncreasing(frames)
  }

  lemma StreamIncreases(arming: Arming, frames: seq<VideoFrame>)
    requires SendableStream(arming, frames)
    ensures StrictlyIncreasing(frames)
  {
  }

  function Videos(frames: seq<VideoFrame>): (ops: seq<Send>)
    ensures |ops| == |frames|
  {
    if frames == [] then [] else [Video(frames[0])] + Videos(frames[1..])
  }

  /** The packets of a whole video-only session. */
  function Sent(p: Primitives, sessionId: uint32, arming: Arming, frames: seq<VideoFrame>, sequence: uint32)
    : seq<seq<byte>>
  {
    SendAll(p, sessionId, arming, Videos(frames), sequence).packets
  }

  /** Fragment i of frame f, as the receiver sees it once admitted. */
  ghost predicate IsFragment(arming: Arming, f: VideoFrame, a: Admitted) {
    var max := MaxPlaintext(arming);
    var n := FragmentCount(|f.data|, max);
    && a.header.frameId == f.frameId
    && a.header.timestampUs == f.timestampUs
    && (a.header.IsKeyframe() <==> f.isKeyframe)
    && a.header.fragmentCount == n
    && a.header.fragmentIndex < n
    && a.payload == Chunk(f.data, max, a.header.fragmentIndex)
  }

  // ---- The receiver's keys ----

  /** If both ends hold keys, they are those of one exchange. */
  ghost predicate Compatible(tx: Arming, rx: Arming) {
    tx.Armed? && tx.keys.Some? && rx.Armed? && rx.keys.Some? ==> Mirrored(tx.keys.value, rx.keys.value)
  }

  /** Sealing, framing, parsing and opening give back the fragment. */
  lemma FragmentAdmitted(p: Primitives, sessionId: uint32, tx: Arming, rx: Arming, f: VideoFrame, i: uint16,
                         sequence: uint32)
    requires p.Laws() && Compatible(tx, rx)
    requires i < FragmentCount(|f.data|, MaxPlaintext(tx))
    requires FragmentPacket(p, sessionId, tx, f, i, sequence).Some?
    ensures var a := Admit(p, rx, FragmentPacket(p, sessionId, tx, f, i, sequence).value);
      && (a.Some? ==> IsFragment(tx, f, a.value) && a.value.header == VideoHeader(sessionId, tx, f, i, sequence))
      && (tx.Plain? && rx.Plain? ==> a.Some?)
      && (tx.Armed? && rx.Armed? && rx.keys.Some? ==> a.Some?)
  {
    hide HeaderBytes, VideoHeader, FragmentPacket, EncryptWith, DecryptWith, ParseHeader, Chunk, FragmentCount, Carried;
    var h := VideoHeader(sessionId, tx, f, i, sequence);
    FragmentPacketParses(p, sessionId, tx, f, i, sequence);
    VideoHeaderFields(sessionId, tx, f, i, sequence);
    BodyIsSealed(p, sessionId, tx, f, i, sequence);
    BodyOpens(p, sessionId, tx, rx, f, i, sequence);
  }

  /** What follows the header in a packet. */
  function Carried(p: Primitives, sessionId: uint32, tx: Arming, f: VideoFrame, i: uint16, sequence: uint32)
    : Option<seq<byte>>
    requires i < FragmentCount(|f.data|, MaxPlaintext(tx))
  {
    var chunk := Chunk(f.data, MaxPlaintext(tx), i);
    if tx.Plain? then Some(chunk)
    else EncryptWith(p, tx.keys, chunk, sequence, HeaderBytes(VideoHeader(sessionId, tx, f, i, sequence)))
  }

  lemma BodyIsSealed(p: Primitives, sessionId: uint32, tx: Arming, f: VideoFrame, i: uint16, sequence: uint32)
    requires i < FragmentCount(|f.data|, MaxPlaintext(tx))
    requires FragmentPacket(p, sessionId, tx, f, i, sequence).Some?
    ensures var packet := FragmentPacket(p, sessionId, tx, f, i, sequence).value;
      && |packet| >= HEADER_SIZE
      && Carried(p, sessionId, tx, f, i, sequence) == Some(packet[HEADER_SIZE..])
      && packet[HEADER_SIZE..|packet|] == packet[HEADER_SIZE..]
  {
    hide HeaderBytes, VideoHeader, EncryptWith, Chunk, FragmentCount;
  }

  lemma BodyOpens(p: Primitives, sessionId: uint32, tx: Arming, rx: Arming, f: VideoFrame, i: uint16, sequence: uint32)
    requires p.Laws() && Compatible(tx, rx)
    requires i < FragmentCount(|f.data|, MaxPlaintext(tx)) && Carried(p, sessionId, tx, f, i, sequence).Some?
    ensures var body := Carried(p, sessionId, tx, f, i, sequence).value;
            var chunk := Chunk(f.data, MaxPlaintext(tx), i);
            var header := HeaderBytes(VideoHeader(sessionId, tx, f, i, sequence));
      && (tx.Plain? ==> body == chunk)
      && (rx.Armed? && rx.keys.None? ==> DecryptWith(p, rx.keys, body, sequence, header).None?)
      && (tx.Armed? && rx.Armed? && rx.keys.Some? ==> DecryptWith(p, rx.keys, body, sequence, header) == Some(chunk))
  {
    hide HeaderBytes, VideoHeader, Chunk, FragmentCount;
    if tx.Armed? && tx.keys.Some? && rx.Armed? && rx.keys.Some? {
      DecryptInvertsEncrypt(p, tx.keys.value, rx.keys.value, Chunk(f.data, MaxPlaintext(tx), i), sequence,
                            HeaderBytes(VideoHeader(sessionId, tx, f, i, sequence)));
      hide DecryptWith;
    }
  }

  // ---- The channel ----

  /** A datagram starts with a packet: only the tail, which the receiver ignores, may differ. */
  ghost predicate Carries(d: seq<byte>, packet: seq<byte>) {
    |packet| <= |d| && d[..|packet|] == packet
  }

  /** Whatever the receiver admits, the sender sent. */
  ghost predicate OnlyGenuineAdmitted(p: Primitives, rx: Arming, packets: seq<seq<byte>>, ds: seq<seq<byte>>) {
    forall i :: 0 <= i < |ds| && Admit(p, rx, ds[i]).Some? ==>
      exists packet :: packet in packets && Carries(ds[i], packet)
  }

  /** Unforgeability on a run: every triple (sequence, header, sealed bytes) that opens was sealed by the sender. */
  ghost predicate Unforged(p: Primitives, keys: SessionKeys, packets: seq<seq<byte>>, ds: seq<seq<byte>>) {
    forall i :: 0 <= i < |ds| && ParseHeader(ds[i]).Some? ==>
      var h := ParseHeader(ds[i]).value;
      var n := HEADER_SIZE + h.payloadLength;
      n <= |ds[i]| && DecryptWith(p, Some(keys), ds[i][HEADER_SIZE..n], h.sequence, ds[i][..HEADER_SIZE]).Some? ==>
        ds[i][..HEADER_SIZE] + ds[i][HEADER_SIZE..n] in packets
  }

  /** A network that only loses, duplicates and reorders meets the hypothesis, keyed or not. */
  lemma RelayIsGenuine(p: Primitives, rx: Arming, packets: seq<seq<byte>>, ds: seq<seq<byte>>)
    requires forall i :: 0 <= i < |ds| ==> ds[i] in packets
    ensures OnlyGenuineAdmitted(p, rx, packets, ds)
  {
    forall i | 0 <= i < |ds| ensures exists packet :: packet in packets && Carries(ds[i], packet) {
      assert Carries(ds[i], ds[i]);
    }
  }

  lemma UnforgedAt(p: Primitives, keys: SessionKeys, packets: seq<seq<byte>>, ds: seq<seq<byte>>, i: nat)
    requires i < |ds| && Unforged(p, keys, packets, ds) && Admit(p, Armed(Some(keys)), ds[i]).Some?
    ensures ParseHeader(ds[i]).Some?
    ensures var n := HEADER_SIZE + ParseHeader(ds[i]).value.payloadLength;
      n <= |ds[i]| && ds[i][..HEADER_SIZE] + ds[i][HEADER_SIZE..n] in packets
  {
    hide ParseHeader, DecryptWith;
  }

  lemma PrefixCarried(d: seq<byte>, n: nat)
    requires HEADER_SIZE <= n <= |d|
    ensures Carries(d, d[..HEADER_SIZE] + d[HEADER_SIZE..n])
  {
    assert d[..HEADER_SIZE] + d[HEADER_SIZE..n] == d[..n];
  }

  /** With keys, unforgeability suffices: any other bytes may be injected. */
  lemma UnforgedIsGenuine(p: Primitives, rx: Arming, packets: seq<seq<byte>>, ds: seq<seq<byte>>)
    requires rx.Armed? && (rx.keys.Some? ==> Unforged(p, rx.keys.value, packets, ds))
    ensures OnlyGenuineAdmitted(p, rx, packets, ds)
  {
    forall i | 0 <= i < |ds| && Admit(p, rx, ds[i]).Some?
      ensures exists packet :: packet in packets && Carries(ds[i], packet)
    {
      KeysNeeded(p, rx, ds[i]);
      hide Admit, Unforged, ParseHeader, Carries;
      UnforgedAt(p, rx.keys.value, packets, ds, i);
      PrefixCarried(ds[i], HEADER_SIZE + ParseHeader(ds[i]).value.payloadLength);
    }
  }

  lemma KeysNeeded(p: Primitives, rx: Arming, d: seq<byte>)
    requires rx.Armed? && Admit(p, rx, d).Some?
    ensures rx.keys.Some?
  {
    hide ParseHeader;
  }

  lemma FieldIgnoresTail(b: seq<byte>, c: seq<byte>, from: nat, width: nat)
    requires from + width <= |b| && b <= c
    ensures Field(b, from, width) == Field(c, from, width)
  {
    assert b[from..from + width] == c[from..from + width];
  }

  lemma ParseIgnoresTail(d: seq<byte>, packet: seq<byte>)
    requires Carries(d, packet) && |packet| >= HEADER_SIZE
    ensures ParseHeader(d) == ParseHeader(packet)
  {
    hide Field;
    FieldIgnoresTail(packet, d, 0, 4);
    FieldIgnoresTail(packet, d, 6, 2);
    FieldIgnoresTail(packet, d, 8, 4);
    FieldIgnoresTail(packet, d, 12, 4);
    FieldIgnoresTail(packet, d, 16, 4);
    FieldIgnoresTail(packet, d, 20, 2);
    FieldIgnoresTail(packet, d, 22, 2);
    FieldIgnoresTail(packet, d, 24, 8);
    FieldIgnoresTail(packet, d, 32, 2);
  }

  /** Bytes after the payload change nothing. */
  lemma AdmitIgnoresTail(p: Primitives, rx: Arming, d: seq<byte>, packet: seq<byte>)
    requires Carries(d, packet) && ParseHeader(packet).Some?
    requires |packet| == HEADER_SIZE + ParseHeader(packet).value.payloadLength
    ensures Admit(p, rx, d) == Admit(p, rx, packet)
  {
    ParseIgnoresTail(d, packet);
    hide ParseHeader;
    var n := |packet|;
    assert d[..HEADER_SIZE] == packet[..HEADER_SIZE];
    assert d[HEADER_SIZE..n] == packet[HEADER_SIZE..n];
  }

  /** Every packet of a session is a fragment of one of its frames. */
  lemma {:induction false} SentIsFragment(p: Primitives, sessionId: uint32, tx: Arming, frames: seq<VideoFrame>,
                                          sequence: uint32, packet: seq<byte>)
    returns (k: nat, i: uint16, n: uint32)
    requires packet in Sent(p, sessionId, tx, frames, sequence)
    ensures k < |frames| && i < FragmentCount(|frames[k].data|, MaxPlaintext(tx))
    ensures FragmentPacket(p, sessionId, tx, frames[k], i, n) == Some(packet)
  {
    hide FragmentPacket;
    var f := frames[0];
    var first := FrameBatch(p, sessionId, tx, f, sequence);
    assert Videos(frames)[1..] == Videos(frames[1..]);
    assert Sent(p, sessionId, tx, frames, sequence)
        == first.packets + Sent(p, sessionId, tx, frames[1..], first.sequence);
    if packet in first.packets {
      var j :| 0 <= j < |first.packets| && first.packets[j] == packet;
      i := BatchIsFragments(p, sessionId, tx, f, sequence, FragmentCount(|f.data|, MaxPlaintext(tx)), j);
      k, n := 0, Next(sequence, i);
    } else {
      k, i, n := SentIsFragment(p, sessionId, tx, frames[1..], first.sequence, packet);
      k := k + 1;
    }
  }

  /** So whatever is admitted on a genuine channel is a fragment of a sent frame. */
  ghost predicate FragmentOfSome(tx: Arming, frames: seq<VideoFrame>, a: Admitted) {
    exists k :: 0 <= k < |frames| && IsFragment(tx, frames[k], a)
  }

  lemma OneOfStream(tx: Arming, frames: seq<VideoFrame>, k: nat, a: Admitted)
    requires k < |frames| && IsFragment(tx, frames[k], a)
    ensures FragmentOfSome(tx, frames, a)
  {
  }

  lemma GenuineIsFragment(p: Primitives, sessionId: uint32, tx: Arming, rx: Arming, frames: seq<VideoFrame>,
                          sequence: uint32, ds: seq<seq<byte>>, i: nat)
    requires p.Laws() && Compatible(tx, rx)
    requires OnlyGenuineAdmitted(p, rx, Sent(p, sessionId, tx, frames, sequence), ds)
    requires i < |ds| && Admit(p, rx, ds[i]).Some?
    ensures FragmentOfSome(tx, frames, Admit(p, rx, ds[i]).value)
    ensures Admit(p, rx, ds[i]).value.header.sessionId == sessionId
  {
    hide Admit, ParseHeader, FragmentPacket, VideoHeader, HeaderBytes, Sent, IsFragment;
    var packet :| packet in Sent(p, sessionId, tx, frames, sequence) && Carries(ds[i], packet);
    var k, j, n := SentIsFragment(p, sessionId, tx, frames, sequence, packet);
    FragmentPacketParses(p, sessionId, tx, frames[k], j, n);
    AdmitIgnoresTail(p, rx, ds[i], packet);
    FragmentAdmitted(p, sessionId, tx, rx, frames[k], j, n);
    VideoHeaderFields(sessionId, tx, frames[k], j, n);
  }

  // ---- The receiver ----

  function Count(tx: Arming, f: VideoFrame): uint16 {
    FragmentCount(|f.data|, MaxPlaintext(tx))
  }

  lemma CountPositive(tx: Arming, f: VideoFrame)
    requires Sendable(tx, f)
    ensures Count(tx, f) > 0
  {
    PiecesAtMost(|f.data|, MaxPlaintext(tx), MAX_FRAGMENTS);
  }

  /** Piece i of a frame, where what the receiver held already takes the place of what is sent. */
  function Piece(tx: Arming, f: VideoFrame, held: map<uint16, seq<byte>>, i: uint16): seq<byte>
    requires i < Count(tx, f)
  {
    if i in held then held[i] else Chunk(f.data, MaxPlaintext(tx), i)
  }

  /** A pending entry described as f is, with what was held of it to begin with and pieces of f beside that. */
  ghost predicate Shaped(tx: Arming, f: VideoFrame, held: map<uint16, seq<byte>>, e: PendingFrame) {
    && e.frameId == f.frameId && e.timestampUs == f.timestampUs && e.isKeyframe == f.isKeyframe
    && e.totalFragments == Count(tx, f)
    && e.receivedFragments == |e.fragments|
    && held.Keys <= e.fragments.Keys
    && (forall i :: i in e.fragments ==> i < Count(tx, f) && e.fragments[i] == Piece(tx, f, held, i))
  }

  /** A pending entry that holds nothing but pieces of the frame. */
  ghost predicate Partial(tx: Arming, f: VideoFrame, e: PendingFrame) {
    Shaped(tx, f, map[], e)
  }

  /** Whatever is pending under the id of a sent frame is a part of that frame, and not all of it yet. */
  ghost predicate PendingGenuine(tx: Arming, frames: seq<VideoFrame>, s: State) {
    forall k :: 0 <= k < |frames| && frames[k].frameId in s.pending ==>
      && Partial(tx, frames[k], s.pending[frames[k].frameId])
      && |s.pending[frames[k].frameId].fragments| < Count(tx, frames[k])
  }

  /** The first n pieces, joined. */
  function Mixed(tx: Arming, f: VideoFrame, held: map<uint16, seq<byte>>, n: uint16): seq<byte>
    requires n <= Count(tx, f)
    decreases n
  {
    if n == 0 then [] else Mixed(tx, f, held, n - 1) + Piece(tx, f, held, n - 1)
  }

  /** What comes out when the fragments that are not held arrive. */
  function Resulting(tx: Arming, f: VideoFrame, held: map<uint16, seq<byte>>): VideoFrame {
    f.(data := Mixed(tx, f, held, Count(tx, f)))
  }

  lemma {:induction false} IndicesBelow(s: set<uint16>, n: uint16)
    requires forall i :: i in s ==> i < n
    ensures |s| <= n
    ensures |s| == n ==> forall i :: 0 <= i < n ==> i in s
    decreases n
  {
    if n != 0 {
      if n - 1 in s {
        var rest := s - {n - 1};
        IndicesBelow(rest, n - 1);
        assert s == rest + {n - 1};
      } else {
        IndicesBelow(s, n - 1);
      }
    } else {
      assert s == {};
    }
  }

  /** Pieces stored under their own indices join to the first n pieces. */
  lemma {:induction false} JoinedPieces(tx: Arming, f: VideoFrame, held: map<uint16, seq<byte>>,
                                        fragments: map<uint16, seq<byte>>, n: uint16)
    requires n <= Count(tx, f)
    requires forall i: uint16 :: i < n ==> i in fragments && fragments[i] == Piece(tx, f, held, i)
    ensures Joined(fragments, n) == Mixed(tx, f, held, n)
    decreases n
  {
    hide Count, Piece;
    if n != 0 { JoinedPieces(tx, f, held, fragments, n - 1); }
  }

  lemma {:induction false} MixedIsChunks(tx: Arming, f: VideoFrame, held: map<uint16, seq<byte>>, n: uint16)
    requires n <= Count(tx, f)
    requires forall i :: i in held && i < Count(tx, f) ==> held[i] == Chunk(f.data, MaxPlaintext(tx), i)
    ensures Mixed(tx, f, held, n) == Chunks(f.data, MaxPlaintext(tx), n)
    decreases n
  {
    hide Chunk, FragmentCount, MaxPlaintext;
    if n != 0 { MixedIsChunks(tx, f, held, n - 1); }
  }

  /** If what is held was sent, the frame comes out. */
  lemma ResultingGenuine(tx: Arming, f: VideoFrame, held: map<uint16, seq<byte>>)
    requires Sendable(tx, f)
    requires forall i :: i in held && i < Count(tx, f) ==> held[i] == Chunk(f.data, MaxPlaintext(tx), i)
    ensures Resulting(tx, f, held) == f
  {
    MixedIsChunks(tx, f, held, Count(tx, f));
    FragmentsRebuildFrameIff(f.data, MaxPlaintext(tx));
  }

  /** Pigeonhole: as many distinct indices as fragments means all of them. */
  lemma CompleteIsResulting(tx: Arming, f: VideoFrame, held: map<uint16, seq<byte>>, e: PendingFrame)
    requires Shaped(tx, f, held, e) && Complete(e)
    ensures FrameOf(e) == Resulting(tx, f, held)
  {
    hide Count, Piece, Joined, Mixed;
    IndicesBelow(e.fragments.Keys, e.totalFragments);
    JoinedPieces(tx, f, held, e.fragments, e.totalFragments);
  }

  /** And so the whole frame, if all of it was sent. */
  lemma CompleteIsFrame(tx: Arming, f: VideoFrame, e: PendingFrame)
    requires Sendable(tx, f) && Partial(tx, f, e) && Complete(e)
    ensures FrameOf(e) == f
  {
    CompleteIsResulting(tx, f, map[], e);
    ResultingGenuine(tx, f, map[]);
  }

  lemma StoredCount(e: PendingFrame, index: uint16, payload: seq<byte>)
    requires e.receivedFragments == |e.fragments| < 0xFFFF
    ensures var stored := WithFragment(e, index, payload);
      && stored.receivedFragments == |stored.fragments| <= |e.fragments| + 1
      && stored.fragments.Keys == e.fragments.Keys + {index}
      && (forall i :: i in stored.fragments ==>
            stored.fragments[i] == if i in e.fragments then e.fragments[i] else payload)
      && stored == e.(fragments := stored.fragments, receivedFragments := stored.receivedFragments)
  {
    if index !in e.fragments {
      assert |e.fragments[index := payload]| == |e.fragments| + 1;
    }
  }

  lemma PieceSent(tx: Arming, f: VideoFrame, held: map<uint16, seq<byte>>, i: uint16)
    requires i < Count(tx, f) && i !in held
    ensures Piece(tx, f, held, i) == Chunk(f.data, MaxPlaintext(tx), i)
  {
  }

  lemma StoredShaped(tx: Arming, f: VideoFrame, held: map<uint16, seq<byte>>, e: PendingFrame, index: uint16,
                     payload: seq<byte>)
    requires Shaped(tx, f, held, e) && |e.fragments| < Count(tx, f)
    requires index < Count(tx, f) && payload == Chunk(f.data, MaxPlaintext(tx), index)
    ensures var stored := WithFragment(e, index, payload);
      && Shaped(tx, f, held, stored)
      && |stored.fragments| <= Count(tx, f)
      && stored.fragments.Keys == e.fragments.Keys + {index}
  {
    hide Count, Chunk, MaxPlaintext, Piece;
    if index in e.fragments {
      assert e.fragments.Keys + {index} == e.fragments.Keys;
    } else {
      PieceSent(tx, f, held, index);
      StoredCount(e, index, payload);
      hide WithFragment;
    }
  }

  /** What is held under an id, if anything. */
  function Held(frames: PendingFrames, id: uint32): map<uint16, seq<byte>> {
    if id in frames then frames[id].fragments else map[]
  }

  /** The entry under f's id may still become f, or f with what was held of it to begin with. */
  ghost predicate Growing(tx: Arming, f: VideoFrame, held: map<uint16, seq<byte>>, frames: PendingFrames) {
    if f.frameId in frames
    then Shaped(tx, f, held, frames[f.frameId]) && |frames[f.frameId].fragments| < Count(tx, f)
    else held == map[]
  }

  /** Storing a fragment of a sent frame adds to its entry, which is complete when it holds as many as there are. */
  lemma EntryShaped(tx: Arming, f: VideoFrame, held: map<uint16, seq<byte>>, frames: PendingFrames, a: Admitted)
    requires Sendable(tx, f) && IsFragment(tx, f, a) && Growing(tx, f, held, frames)
    ensures var e := Entry(frames, a);
      && Shaped(tx, f, held, e) && |e.fragments| <= Count(tx, f)
      && e.fragments.Keys == Held(frames, f.frameId).Keys + {a.header.fragmentIndex}
      && (Complete(e) <==> |e.fragments| == Count(tx, f))
      && (Complete(e) ==> FrameOf(e) == Resulting(tx, f, held))
  {
    CountPositive(tx, f);
    hide FragmentCount, Chunk, MaxPlaintext, WithFragment, Sendable, FrameOf, Resulting;
    var before := Opened(if f.frameId in frames then frames[f.frameId] else EMPTY_PENDING, a.header);
    assert f.frameId in frames && before.frameId == 0 ==> f.frameId == 0;
    assert Shaped(tx, f, held, before) && |before.fragments| < Count(tx, f);
    StoredShaped(tx, f, held, before, a.header.fragmentIndex, a.payload);
    hide Shaped, Count;
    var e := Entry(frames, a);
    if Complete(e) { CompleteIsResulting(tx, f, held, e); }
  }

  lemma SameId(frames: seq<VideoFrame>, i: nat, j: nat)
    requires StrictlyIncreasing(frames) && i < |frames| && j < |frames| && frames[i].frameId == frames[j].frameId
    ensures i == j
  {
  }

  /** What Collect stores is a part of the frame; what it emits is the frame. */
  lemma EntryGenuine(tx: Arming, frames: seq<VideoFrame>, s: State, a: Admitted, k: nat)
    requires SendableStream(tx, frames) && PendingGenuine(tx, frames, s)
    requires k < |frames| && IsFragment(tx, frames[k], a)
    ensures var e := Entry(s.pending, a);
      && frames[k].frameId == a.header.frameId == e.frameId
      && Partial(tx, frames[k], e)
      && (if Complete(e) then FrameOf(e) == frames[k] else |e.fragments| < Count(tx, frames[k]))
  {
    hide Sendable, Chunk, Count, Entry, FrameOf, Complete, Resulting;
    EntryShaped(tx, frames[k], map[], s.pending, a);
    ResultingGenuine(tx, frames[k], map[]);
  }

  lemma CollectGenuine(tx: Arming, frames: seq<VideoFrame>, s: State, a: Admitted, k: nat)
    requires SendableStream(tx, frames) && PendingGenuine(tx, frames, s)
    requires k < |frames| && IsFragment(tx, frames[k], a)
    ensures PendingGenuine(tx, frames, Collect(s, a).state)
    ensures Collect(s, a).effects.frame.Some? ==> Collect(s, a).effects.frame.value in frames
  {
    hide Sendable, Collect, Partial, IsFragment, Entry, Joined, Complete, FrameOf, Count;
    EntryGenuine(tx, frames, s, a, k);
    CollectKeepsEntries(s, a);
    var t := Collect(s, a).state;
    forall j | 0 <= j < |frames| && frames[j].frameId in t.pending
      ensures Partial(tx, frames[j], t.pending[frames[j].frameId])
      ensures |t.pending[frames[j].frameId].fragments| < Count(tx, frames[j])
    {
      if frames[j].frameId == frames[k].frameId { SameId(frames, j, k); }
    }
  }

  lemma ReceiveGenuine(tx: Arming, frames: seq<VideoFrame>, s: State, a: Admitted)
    requires SendableStream(tx, frames) && PendingGenuine(tx, frames, s) && FragmentOfSome(tx, frames, a)
    ensures PendingGenuine(tx, frames, Receive(s, a).state)
    ensures Receive(s, a).effects.frame.Some? ==> Receive(s, a).effects.frame.value in frames
  {
    hide SendableStream, Partial, IsFragment, Collect;
    var k :| 0 <= k < |frames| && IsFragment(tx, frames[k], a);
    var s1 := Pinned(s.(replay := Filter.Step(s.replay, a.header.sequence).state), a.header.sessionId);
    CollectGenuine(tx, frames, s1, a, k);
  }

  lemma {:induction false} RunGenuine(p: Primitives, sessionId: uint32, tx: Arming, rx: Arming,
                                      frames: seq<VideoFrame>, sequence: uint32, s: State, ds: seq<seq<byte>>)
    requires p.Laws() && Compatible(tx, rx) && SendableStream(tx, frames) && PendingGenuine(tx, frames, s)
    requires OnlyGenuineAdmitted(p, rx, Sent(p, sessionId, tx, frames, sequence), ds)
    ensures forall f :: f in Run(p, rx, s, ds).frames ==> f in frames
    ensures forall i :: 0 <= i < |ds| ==> AdmittedIdsNumbered(p, rx, ds[i])
    decreases |ds|
  {
    hide Admit, Receive, PendingGenuine, SendableStream, FragmentOfSome, Sent, Carries;
    if ds != [] {
      var packets := Sent(p, sessionId, tx, frames, sequence);
      var a := Admit(p, rx, ds[0]);
      if a.Some? {
        GenuineIsFragment(p, sessionId, tx, rx, frames, sequence, ds, 0);
        ReceiveGenuine(tx, frames, s, a.value);
        FragmentNumbered(tx, frames, a.value);
      }
      var o := Push(p, rx, s, ds[0]);
      assert OnlyGenuineAdmitted(p, rx, packets, ds[1..]) by {
        forall i | 0 <= i < |ds[1..]| && Admit(p, rx, ds[1..][i]).Some?
          ensures exists packet :: packet in packets && Carries(ds[1..][i], packet)
        {
          assert ds[1..][i] == ds[i + 1];
        }
      }
      RunGenuine(p, sessionId, tx, rx, frames, sequence, o.state, ds[1..]);
      forall i | 0 <= i < |ds| ensures AdmittedIdsNumbered(p, rx, ds[i]) {
        if i > 0 { assert ds[i] == ds[1..][i - 1]; }
      }
    }
  }

  lemma FragmentNumbered(tx: Arming, frames: seq<VideoFrame>, a: Admitted)
    requires SendableStream(tx, frames) && FragmentOfSome(tx, frames, a)
    ensures Numbered(a.header.frameId)
  {
  }

  /**
    The headline: a video-only session, any datagrams in any order, and a receiver in any state that holds no
    foreign fragments under the ids of sent frames. Every emitted frame is one of the sent frames - same id,
    timestamp, key flag and bytes - and ids strictly increase, so none comes out twice.
  */
  lemma EndToEndIntegrity(p: Primitives, sessionId: uint32, tx: Arming, rx: Arming, frames: seq<VideoFrame>,
                          sequence: uint32, s: State, ds: seq<seq<byte>>)
    requires p.Laws() && Compatible(tx, rx) && SendableStream(tx, frames)
    requires PendingGenuine(tx, frames, s) && Ordered(s)
    requires OnlyGenuineAdmitted(p, rx, Sent(p, sessionId, tx, frames, sequence), ds)
    ensures var emitted := Run(p, rx, s, ds).frames;
      && (forall f :: f in emitted ==> f in frames)
      && StrictlyIncreasing(emitted)
  {
    hide Run;
    RunGenuine(p, sessionId, tx, rx, frames, sequence, s, ds);
    FramesIncrease(p, rx, s, ds);
  }

  /** The first packet after arming meets neither replay history, pin nor stale test. */
  lemma FirstIsCollected(s: State, a: Admitted)
    requires s.replay == Filter.INITIAL && !s.sessionLocked && s.waiting && a.header.IsKeyframe()
    ensures var r := Filter.Step(Filter.INITIAL, a.header.sequence).state;
      Receive(s, a) == Collect(Pinned(s.(replay := r), a.header.sessionId), a)
  {
    Filter.StepRefines(Filter.INITIAL, {}, a.header.sequence);
    hide Collect, Filter.Step;
  }

  lemma SecondCompletes(s: State, f: VideoFrame, a: Admitted, b: Admitted)
    requires f.frameId > 0 && s.pending == map[f.frameId := Entry(map[], a)]
    requires forall h :: h in [a.header, b.header] ==>
      h.frameId == f.frameId && h.timestampUs == f.timestampUs && h.IsKeyframe() == f.isKeyframe && h.fragmentCount == 2
    requires a.header.fragmentIndex == 0 && b.header.fragmentIndex == 1
    ensures Collect(s, b).effects.frame == Some(f.(data := a.payload + b.payload))
  {
    hide Newer, Trimmed;
    assert a.header in [a.header, b.header] && b.header in [a.header, b.header];
    var e := Entry(s.pending, b);
    assert e.fragments == map[0 := a.payload, 1 := b.payload];
    assert Joined(e.fragments, 1) == a.payload by { assert Joined(e.fragments, 0) + a.payload == a.payload; }
  }

  lemma FirstIsStored(s: State, a: Admitted)
    requires s.pending == map[] && a.header.fragmentCount == 2 && a.header.frameId > 0
    ensures Collect(s, a) == Outcome(s.(pending := map[a.header.frameId := Entry(map[], a)]), Effects(true, None, None))
  {
    hide Joined;
    var frames := s.pending[a.header.frameId := Entry(s.pending, a)];
    assert frames == map[a.header.frameId := Entry(map[], a)];
    assert |frames| == 1;
  }

  lemma SameTail(a: seq<byte>, b: seq<byte>, c: seq<byte>)
    ensures a + c == b + c <==> a == b
  {
    if a + c == b + c {
      assert |a + c| == |a| + |c| && |b + c| == |b| + |c|;
      assert a == (a + c)[..|a|] && b == (b + c)[..|b|];
    }
  }

  lemma TwoChunks(f: VideoFrame, max: nat)
    requires max > 0 && FragmentCount(|f.data|, max) == 2 && |f.data| <= MAX_FRAGMENTS * max
    ensures Pieces(|f.data|, max) == 2 && f.data == Chunk(f.data, max, 0) + Chunk(f.data, max, 1)
  {
    PiecesAtMost(|f.data|, max, MAX_FRAGMENTS);
    FragmentsRebuildFrameIff(f.data, max);
    hide Chunk;
    assert Chunks(f.data, max, 1) == Chunks(f.data, max, 0) + Chunk(f.data, max, 0);
    assert Chunks(f.data, max, 2) == Chunks(f.data, max, 1) + Chunk(f.data, max, 1);
    assert [] + Chunk(f.data, max, 0) == Chunk(f.data, max, 0);
  }

  /**
    That hypothesis is needed. Arming keeps what was collected before it: a first fragment forged while the
    receiver was unkeyed comes out joined to the genuine second one, as a frame that differs from the sent one
    exactly when the forged bytes do.
  */
  lemma PendingForgeryEmerges(p: Primitives, tx: Arming, rx: Arming, f: VideoFrame, forged: seq<byte>,
                              genuine: seq<byte>)
    requires Sendable(tx, f) && f.isKeyframe && FragmentCount(|f.data|, MaxPlaintext(tx)) == 2
    requires Admit(p, Plain, forged).Some?
    requires var h := Admit(p, Plain, forged).value.header;
      && h.frameId == f.frameId && h.timestampUs == f.timestampUs && h.IsKeyframe()
      && h.fragmentCount == 2 && h.fragmentIndex == 0
    requires Admit(p, rx, genuine).Some? && IsFragment(tx, f, Admit(p, rx, genuine).value)
    requires Admit(p, rx, genuine).value.header.fragmentIndex == 1
    ensures var before := Run(p, Plain, Reassembler.INITIAL, [forged]);
            var emitted := Run(p, rx, Rearmed(before.state), [genuine]).frames;
      && before.frames == []
      && emitted == [f.(data := Admit(p, Plain, forged).value.payload + Admit(p, rx, genuine).value.payload)]
      && (emitted == [f] <==> Admit(p, Plain, forged).value.payload == Chunk(f.data, MaxPlaintext(tx), 0))
  {
    hide Admit, Chunk, FragmentCount, Pieces, MaxPlaintext, Receive, Collect, Filter.Step, Entry, Run;
    var a, b := Admit(p, Plain, forged).value, Admit(p, rx, genuine).value;
    TwoChunks(f, MaxPlaintext(tx));
    SameTail(a.payload, Chunk(f.data, MaxPlaintext(tx), 0), b.payload);
    FirstIsCollected(Reassembler.INITIAL, a);
    var s := Pinned(Reassembler.INITIAL.(replay := Filter.Step(Filter.INITIAL, a.header.sequence).state),
                    a.header.sessionId);
    FirstIsStored(s, a);
    var first := Receive(Reassembler.INITIAL, a);
    var again := Rearmed(first.state);
    FirstIsCollected(again, b);
    var t := Pinned(again.(replay := Filter.Step(Filter.INITIAL, b.header.sequence).state), b.header.sessionId);
    SecondCompletes(t, f, a, b);
    hide Sendable;
    OneDatagram(p, Plain, Reassembler.INITIAL, forged);
    OneDatagram(p, rx, again, genuine);
  }

  lemma OneDatagram(p: Primitives, mode: Arming, s: State, d: seq<byte>)
    ensures var o := Push(p, mode, s, d);
      Run(p, mode, s, [d]) == Trace(o.state, Listed(o.effects.frame), Listed(o.effects.missingKeyframe))
  {
    hide Push;
    assert [d][1..] == [];
  }
}
