/**
  What each packet of an armed sender was sealed under, told from the packet itself, and what a receiver makes of
  packets and audio. Here the calls of the primitives are spelt out.
*/
module Sealing {
  import opened Wrappers
  import opened Bytes
  import opened Protocol
  import opened Crypto
  import opened Packetizer
  import opened Reassembler
  import opened Integrity

  // ---- One datagram ----

  /**
    A datagram is admitted exactly when its header parses, its payload fits, its stream is known, and either nobody
    encrypts or the payload opens under the receive key, the receive salt with the header's number, and the header's
    bytes; what opens is then the payload.
  */
  lemma AdmittedIff(p: Primitives, mode: Arming, d: seq<byte>, a: Admitted)
    ensures Admit(p, mode, d) == Some(a) <==>
      && ParseHeader(d) == Some(a.header)
      && 34 + a.header.payloadLength <= |d|
      && (a.header.streamId == 0 || a.header.streamId == 1)
      && var body := d[34..34 + a.header.payloadLength];
         if a.header.IsEncrypted() then
           mode.Armed? && mode.keys.Some? && a.header.payloadLength >= 16
           && p.open(mode.keys.value.rxKey, Nonce(mode.keys.value.rxSalt, a.header.sequence), d[..34], body)
              == Some(a.payload)
         else mode.Plain? && a.payload == body
  {
    hide ParseHeader, Nonce;
  }

  /** Header h, then what seals `text` under the transmit key, the transmit salt with h's number, and h's bytes. */
  ghost predicate SealedPacket(p: Primitives, keys: SessionKeys, h: PacketHeader, text: seq<byte>, packet: seq<byte>) {
    && |packet| >= 34 && packet[..34] == HeaderBytes(h)
    && p.seal(keys.txKey, Nonce(keys.txSalt, h.sequence), HeaderBytes(h), text) == Some(packet[34..])
  }

  /** The packet of a fragment is its chunk sealed in this way, and is missing exactly when that fails. */
  lemma FragmentIsSealed(p: Primitives, sessionId: uint32, keys: SessionKeys, f: VideoFrame, i: uint16,
                         sequence: uint32, packet: seq<byte>)
    requires p.Laws() && i < FragmentCount(|f.data|, 1150)
    ensures FragmentPacket(p, sessionId, Armed(Some(keys)), f, i, sequence) == Some(packet) <==>
      SealedPacket(p, keys, VideoHeader(sessionId, Armed(Some(keys)), f, i, sequence), Chunk(f.data, 1150, i), packet)
    ensures VideoHeader(sessionId, Armed(Some(keys)), f, i, sequence).sequence == sequence
  {
    var h := VideoHeader(sessionId, Armed(Some(keys)), f, i, sequence);
    var chunk := Chunk(f.data, 1150, i);
    var box := p.seal(keys.txKey, Nonce(keys.txSalt, sequence), HeaderBytes(h), chunk);
    assert p.OpenInvertsSeal();
    hide HeaderBytes, Chunk, FragmentCount, Nonce;
    if box.Some? { HeaderThenBody(HeaderBytes(h), box.value, packet); }
  }

  lemma HeaderThenBody(header: seq<byte>, body: seq<byte>, packet: seq<byte>)
    requires |header| == 34
    ensures packet == header + body <==> |packet| >= 34 && packet[..34] == header && packet[34..] == body
  {
  }

  /** The header of an audio packet: stream 1, one fragment, no keyframe, the caller's id and time. */
  ghost predicate DescribesAudio(h: PacketHeader, sessionId: uint32, armed: bool, size: nat, frameId: uint32,
                                 timestampUs: uint64, sequence: uint32)
  {
    && h.magic == MAGIC && h.version == VERSION && h.streamId == 1 && h.sessionId == sessionId
    && h.frameId == frameId && h.timestampUs == timestampUs && h.sequence == sequence
    && h.fragmentIndex == 0 && h.fragmentCount == 1
    && h.flags == (if armed then 6 else 2)
    && h.payloadLength == (if armed then size + 16 else size)
  }

  lemma AudioIsDescribed(h: PacketHeader, sessionId: uint32, arming: Arming, size: nat, frameId: uint32,
                         timestampUs: uint64, sequence: uint32)
    requires size <= 1150
    ensures h == AudioHeader(sessionId, arming, size, frameId, timestampUs, sequence) <==>
      DescribesAudio(h, sessionId, arming.Armed?, size, frameId, timestampUs, sequence)
  {
  }

  /** An armed sender's audio packet is the payload sealed in this way, and is missing exactly when that fails. */
  lemma AudioIsSealed(p: Primitives, sessionId: uint32, keys: SessionKeys, audio: seq<byte>, frameId: uint32,
                      timestampUs: uint64, sequence: uint32, h: PacketHeader, packet: seq<byte>)
    requires p.Laws() && 0 < |audio| <= 1150
    requires DescribesAudio(h, sessionId, true, |audio|, frameId, timestampUs, sequence)
    ensures AudioBatch(p, sessionId, Armed(Some(keys)), audio, frameId, timestampUs, sequence).packets == [packet]
            <==> SealedPacket(p, keys, h, audio, packet)
  {
    AudioIsDescribed(h, sessionId, Armed(Some(keys)), |audio|, frameId, timestampUs, sequence);
    var box := p.seal(keys.txKey, Nonce(keys.txSalt, sequence), HeaderBytes(h), audio);
    assert p.OpenInvertsSeal();
    hide HeaderBytes, Nonce;
    if box.Some? { HeaderThenBody(HeaderBytes(h), box.value, packet); }
  }

  /** A payload of an illegal size costs nothing; any other takes one number, whether or not it could be sealed. */
  lemma AudioNumbering(p: Primitives, sessionId: uint32, tx: Arming, audio: seq<byte>, frameId: uint32,
                       timestampUs: uint64, sequence: uint32)
    ensures var b := AudioBatch(p, sessionId, tx, audio, frameId, timestampUs, sequence);
      var legal := |audio| <= 1150 && (audio != [] || tx.Plain?);
      && b.sequence == (if legal then Next(sequence, 1) else sequence)
      && |b.packets| <= (if legal then 1 else 0)
      && (legal && tx.Plain? ==> |b.packets| == 1)
  {
    hide HeaderBytes, EncryptWith;
    assert Next(sequence, 0) == sequence;
  }

  /**
    An audio packet comes to a receiver as the payload that was handed in, described as it was handed in - exactly
    when neither peer or both are armed, the receiver with keys.
  */
  lemma AudioAdmittedIff(p: Primitives, sessionId: uint32, tx: Arming, rx: Arming, audio: seq<byte>, frameId: uint32,
                         timestampUs: uint64, sequence: uint32, packet: seq<byte>)
    requires p.Laws() && Compatible(tx, rx)
    requires AudioBatch(p, sessionId, tx, audio, frameId, timestampUs, sequence).packets == [packet]
    ensures var a := Admit(p, rx, packet);
      && (a.Some? <==> tx.Armed? == rx.Armed? && (rx.Armed? ==> rx.keys.Some?))
      && (a.Some? ==> a.value.payload == audio
                      && DescribesAudio(a.value.header, sessionId, tx.Armed?, |audio|, frameId, timestampUs, sequence))
  {
    hide HeaderBytes, EncryptWith, DecryptWith, Admit;
    var h := AudioHeader(sessionId, tx, |audio|, frameId, timestampUs, sequence);
    AudioIsDescribed(h, sessionId, tx, |audio|, frameId, timestampUs, sequence);
    var body := AudioBody(p, sessionId, tx, audio, frameId, timestampUs, sequence, packet);
    if tx.Armed? { AudioOpens(p, tx, rx, audio, sequence, HeaderBytes(h)); }
    AdmittedBody(p, rx, h, body);
  }

  lemma AudioBody(p: Primitives, sessionId: uint32, tx: Arming, audio: seq<byte>, frameId: uint32,
                  timestampUs: uint64, sequence: uint32, packet: seq<byte>)
    returns (body: seq<byte>)
    requires AudioBatch(p, sessionId, tx, audio, frameId, timestampUs, sequence).packets == [packet]
    ensures |audio| <= 1150
    ensures var h := AudioHeader(sessionId, tx, |audio|, frameId, timestampUs, sequence);
      && packet == HeaderBytes(h) + body && |body| == h.payloadLength
      && (tx.Plain? ==> body == audio)
      && (tx.Armed? ==> EncryptWith(p, tx.keys, audio, sequence, HeaderBytes(h)) == Some(body))
  {
    hide HeaderBytes, EncryptWith;
    var h := AudioHeader(sessionId, tx, |audio|, frameId, timestampUs, sequence);
    body := if tx.Plain? then audio else EncryptWith(p, tx.keys, audio, sequence, HeaderBytes(h)).value;
  }

  /** How a well-formed header followed by its payload is admitted. */
  lemma AdmittedBody(p: Primitives, rx: Arming, h: PacketHeader, body: seq<byte>)
    requires h.magic == MAGIC && h.version == VERSION && (h.streamId == 0 || h.streamId == 1)
    requires |body| == h.payloadLength
    ensures Admit(p, rx, HeaderBytes(h) + body)
      == if h.IsEncrypted() && rx.Armed? then
           var text := DecryptWith(p, rx.keys, body, h.sequence, HeaderBytes(h));
           if text.None? then None else Some(Admitted(h, text.value))
         else if !h.IsEncrypted() && rx.Plain? then Some(Admitted(h, body))
         else None
  {
    hide HeaderBytes, DecryptWith, ParseHeader;
    HeaderRoundTrip(h, body);
    var d := HeaderBytes(h) + body;
    assert d[..34] == HeaderBytes(h) && d[34..34 + |body|] == body;
  }

  lemma AudioOpens(p: Primitives, tx: Arming, rx: Arming, audio: seq<byte>, sequence: uint32, header: seq<byte>)
    requires p.Laws() && Compatible(tx, rx) && tx.Armed? && EncryptWith(p, tx.keys, audio, sequence, header).Some?
    ensures rx.Armed? && rx.keys.Some? ==>
      DecryptWith(p, rx.keys, EncryptWith(p, tx.keys, audio, sequence, header).value, sequence, header) == Some(audio)
    ensures rx.Armed? && rx.keys.None? ==>
      DecryptWith(p, rx.keys, EncryptWith(p, tx.keys, audio, sequence, header).value, sequence, header) == None
  {
    if rx.Armed? && rx.keys.Some? {
      DecryptInvertsEncrypt(p, tx.keys.value, rx.keys.value, audio, sequence, header);
      hide DecryptWith;
    }
  }

  // ---- The seals of a whole sending session ----

  /** A packet that carries this number and was sealed under it. */
  ghost predicate SealedUnder(p: Primitives, keys: SessionKeys, number: uint32, packet: seq<byte>) {
    && |packet| >= 34 && HeaderAt(packet).sequence == number
    && exists text :: p.seal(keys.txKey, Nonce(keys.txSalt, number), packet[..34], text) == Some(packet[34..])
  }

  lemma SealedPacketIsUnder(p: Primitives, keys: SessionKeys, h: PacketHeader, text: seq<byte>, packet: seq<byte>)
    requires SealedPacket(p, keys, h, text, packet)
    ensures SealedUnder(p, keys, h.sequence, packet)
  {
    hide HeaderBytes, Nonce, HeaderAt;
    HeaderRoundTrip(h, packet[34..]);
    assert packet == HeaderBytes(h) + packet[34..];
    assert p.seal(keys.txKey, Nonce(keys.txSalt, h.sequence), packet[..34], text) == Some(packet[34..]);
  }

  /** Packet k was sealed under number at[k] of the n that the counter went through; no number served twice. */
  ghost predicate Placed(p: Primitives, keys: SessionKeys, sequence: uint32, n: nat, packets: seq<seq<byte>>,
                         at: seq<nat>)
  {
    && |at| == |packets|
    && (forall k :: 0 <= k < |at| ==> at[k] < n)
    && (forall j, k :: 0 <= j < k < |at| ==> at[j] < at[k])
    && (forall k :: 0 <= k < |at| ==> SealedUnder(p, keys, Next(sequence, at[k]), packets[k]))
  }

  lemma {:induction false} FramePlaced(p: Primitives, sessionId: uint32, keys: SessionKeys, f: VideoFrame,
                                       sequence: uint32, n: nat)
    returns (at: seq<nat>)
    requires p.Laws() && n <= FragmentCount(|f.data|, 1150)
    ensures Placed(p, keys, sequence, n, FirstPackets(p, sessionId, Armed(Some(keys)), f, sequence, n), at)
    decreases n
  {
    hide FragmentPacket, VideoHeader, SealedUnder, SealedPacket, FragmentCount;
    at := [];
    if n != 0 {
      at := FramePlaced(p, sessionId, keys, f, sequence, n - 1);
      var number := Next(sequence, n - 1);
      var packet := FragmentPacket(p, sessionId, Armed(Some(keys)), f, n - 1, number);
      if packet.Some? {
        FragmentIsSealed(p, sessionId, keys, f, n - 1, number, packet.value);
        SealedPacketIsUnder(p, keys, VideoHeader(sessionId, Armed(Some(keys)), f, n - 1, number),
                            Chunk(f.data, 1150, n - 1), packet.value);
        at := at + [n - 1];
      }
    }
  }

  lemma SendPlaced(p: Primitives, sessionId: uint32, keys: SessionKeys, op: Send, sequence: uint32)
    returns (at: seq<nat>)
    requires p.Laws()
    ensures var b := SendBatch(p, sessionId, Armed(Some(keys)), op, sequence);
      Placed(p, keys, sequence, |b.encrypted|, b.packets, at)
  {
    hide SealedUnder, SealedPacket, FirstPackets, HeaderBytes;
    match op
    case Video(f) =>
      at := FramePlaced(p, sessionId, keys, f, sequence, FragmentCount(|f.data|, 1150));
    case Audio(audio, id, ts) =>
      var packets := AudioBatch(p, sessionId, Armed(Some(keys)), audio, id, ts, sequence).packets;
      at := [];
      if packets != [] {
        var h := AudioHeader(sessionId, Armed(Some(keys)), |audio|, id, ts, sequence);
        AudioIsDescribed(h, sessionId, Armed(Some(keys)), |audio|, id, ts, sequence);
        AudioIsSealed(p, sessionId, keys, audio, id, ts, sequence, h, packets[0]);
        SealedPacketIsUnder(p, keys, h, audio, packets[0]);
        assert Next(sequence, 0) == sequence;
        at := [0];
      }
  }

  lemma PlacedJoin(p: Primitives, keys: SessionKeys, sequence: uint32, m: nat, x: seq<seq<byte>>, at: seq<nat>,
                   n: nat, y: seq<seq<byte>>, from: seq<nat>)
    returns (all: seq<nat>)
    requires Placed(p, keys, sequence, m, x, at) && Placed(p, keys, Next(sequence, m), n, y, from)
    ensures Placed(p, keys, sequence, m + n, x + y, all)
  {
    hide SealedUnder, Next;
    all := at + seq(|from|, k requires 0 <= k < |from| => m + from[k]);
    forall k | 0 <= k < |all| ensures SealedUnder(p, keys, Next(sequence, all[k]), (x + y)[k]) {
      if k >= |at| { NextNext(sequence, m, from[k - |at|]); }
    }
  }

  lemma {:induction false} AllPlaced(p: Primitives, sessionId: uint32, keys: SessionKeys, ops: seq<Send>,
                                     sequence: uint32)
    returns (at: seq<nat>)
    requires p.Laws()
    ensures Placed(p, keys, sequence, SealCalls(ops),
                   SendAll(p, sessionId, Armed(Some(keys)), ops, sequence).packets, at)
  {
    SealCallsCounts(p, sessionId, Armed(Some(keys)), ops, sequence);
    if ops == [] {
      at := [];
    } else {
      hide Placed, SendBatch, Next, Numbers, SealCalls;
      var first := SendBatch(p, sessionId, Armed(Some(keys)), ops[0], sequence);
      var rest := SendAll(p, sessionId, Armed(Some(keys)), ops[1..], first.sequence);
      var x := SendPlaced(p, sessionId, keys, ops[0], sequence);
      var y := AllPlaced(p, sessionId, keys, ops[1..], first.sequence);
      SendNumbers(p, sessionId, Armed(Some(keys)), ops[0], sequence);
      SealCallsCounts(p, sessionId, Armed(Some(keys)), ops[1..], first.sequence);
      at := PlacedJoin(p, keys, sequence, |first.encrypted|, first.packets, x, |rest.encrypted|, rest.packets, y);
    }
  }

  /** The nonce that a packet's own header calls for. */
  function PacketNonce(salt: Salt, packet: seq<byte>): seq<byte>
    requires |packet| >= 34
  {
    Nonce(salt, HeaderAt(packet).sequence)
  }

  lemma AllPlacesTaken(at: seq<nat>, n: nat, k: nat)
    requires |at| == n && k < n && (forall j :: 0 <= j < n ==> at[j] < n)
    requires forall i, j :: 0 <= i < j < n ==> at[i] < at[j]
    ensures at[k] == k
  {
    AtLeast(at, k);
    AtMost(at, n, k);
  }

  lemma {:induction false} AtLeast(at: seq<nat>, k: nat)
    requires k < |at| && forall i, j :: 0 <= i < j < |at| ==> at[i] < at[j]
    ensures at[k] >= k
  {
    if k > 0 { AtLeast(at, k - 1); }
  }

  lemma {:induction false} AtMost(at: seq<nat>, n: nat, k: nat)
    requires |at| == n && k < n && (forall j :: 0 <= j < n ==> at[j] < n)
    requires forall i, j :: 0 <= i < j < n ==> at[i] < at[j]
    ensures at[k] <= k
    decreases n - k
  {
    if k + 1 < n { AtMost(at, n, k + 1); }
  }

  /** Two packets were sealed under one nonce. */
  ghost predicate NonceReused(salt: Salt, packets: seq<seq<byte>>)
    requires forall k :: 0 <= k < |packets| ==> |packets[k]| >= 34
  {
    exists j, k :: 0 <= j < k < |packets| && PacketNonce(salt, packets[j]) == PacketNonce(salt, packets[k])
  }

  /**
    Every packet of an armed session, video or audio, was sealed under the session's key and the nonce of its own
    number. No two share a nonce as long as the fragments and audio payloads handed in number at most 2^32; if none
    fails to seal, exactly as long as that.
  */
  lemma SealedNoncesDistinctIff(p: Primitives, sessionId: uint32, keys: SessionKeys, ops: seq<Send>, sequence: uint32)
    requires p.Laws()
    ensures var packets := SendAll(p, sessionId, Armed(Some(keys)), ops, sequence).packets;
      && |packets| <= SealCalls(ops)
      && (forall k :: 0 <= k < |packets| ==>
            |packets[k]| >= 34 && SealedUnder(p, keys, HeaderAt(packets[k]).sequence, packets[k]))
      && (SealCalls(ops) <= 0x1_0000_0000 ==> !NonceReused(keys.txSalt, packets))
      && (|packets| == SealCalls(ops) > 0x1_0000_0000 ==> NonceReused(keys.txSalt, packets))
  {
    var packets := SendAll(p, sessionId, Armed(Some(keys)), ops, sequence).packets;
    var at := AllPlaced(p, sessionId, keys, ops, sequence);
    hide SendAll, SealCalls;
    PlacesBelow(at, SealCalls(ops));
    PlacedNoncesDiffer(p, keys, sequence, SealCalls(ops), packets, at);
  }

  lemma PlacesBelow(at: seq<nat>, n: nat)
    requires (forall k :: 0 <= k < |at| ==> at[k] < n) && (forall j, k :: 0 <= j < k < |at| ==> at[j] < at[k])
    ensures |at| <= n
  {
    if at != [] { AtLeast(at, |at| - 1); }
  }

  lemma PlacedNoncesDiffer(p: Primitives, keys: SessionKeys, sequence: uint32, n: nat, packets: seq<seq<byte>>,
                           at: seq<nat>)
    requires Placed(p, keys, sequence, n, packets, at)
    ensures forall k :: 0 <= k < |packets| ==>
              |packets[k]| >= 34 && SealedUnder(p, keys, HeaderAt(packets[k]).sequence, packets[k])
    ensures n <= SEQUENCES ==> !NonceReused(keys.txSalt, packets)
    ensures |packets| == n > SEQUENCES ==> NonceReused(keys.txSalt, packets)
  {
    hide Next, Nonce, HeaderAt;
    forall k | 0 <= k < |packets|
      ensures |packets[k]| >= 34 && HeaderAt(packets[k]).sequence == Next(sequence, at[k])
    {
      assert SealedUnder(p, keys, Next(sequence, at[k]), packets[k]);
    }
    if n <= SEQUENCES {
      forall j, k | 0 <= j < k < |packets|
        ensures PacketNonce(keys.txSalt, packets[j]) != PacketNonce(keys.txSalt, packets[k])
      {
        NextRepeatsIff(sequence, at[j], at[k]);
        if PacketNonce(keys.txSalt, packets[j]) == PacketNonce(keys.txSalt, packets[k]) {
          NonceInjective(keys.txSalt, Next(sequence, at[j]), Next(sequence, at[k]));
        }
      }
    } else if |packets| == n {
      AllPlacesTaken(at, n, 0);
      AllPlacesTaken(at, n, SEQUENCES);
      NextRepeatsIff(sequence, 0, SEQUENCES);
      assert PacketNonce(keys.txSalt, packets[0]) == PacketNonce(keys.txSalt, packets[SEQUENCES]);
    }
  }

  // ---- Nothing else is sealed ----

  /** Two suites of primitives that seal alike under this key and the nonces of these numbers. */
  ghost predicate SealAlike(p: Primitives, q: Primitives, keys: SessionKeys, numbers: seq<uint32>) {
    forall k, aad, text :: 0 <= k < |numbers| ==>
      p.seal(keys.txKey, Nonce(keys.txSalt, numbers[k]), aad, text)
      == q.seal(keys.txKey, Nonce(keys.txSalt, numbers[k]), aad, text)
  }

  lemma AlikeParts(p: Primitives, q: Primitives, keys: SessionKeys, x: seq<uint32>, y: seq<uint32>)
    requires SealAlike(p, q, keys, x + y)
    ensures SealAlike(p, q, keys, x) && SealAlike(p, q, keys, y)
  {
    hide Nonce;
    assert forall k :: 0 <= k < |x| ==> (x + y)[k] == x[k];
    assert forall k :: 0 <= k < |y| ==> (x + y)[|x| + k] == y[k];
  }

  lemma AlikeAt(p: Primitives, q: Primitives, keys: SessionKeys, numbers: seq<uint32>, k: nat, aad: seq<byte>,
                text: seq<byte>)
    requires SealAlike(p, q, keys, numbers) && k < |numbers|
    ensures EncryptWith(p, Some(keys), text, numbers[k], aad) == EncryptWith(q, Some(keys), text, numbers[k], aad)
  {
  }

  lemma {:induction false} FrameAlike(p: Primitives, q: Primitives, sessionId: uint32, keys: SessionKeys,
                                      f: VideoFrame, sequence: uint32, n: nat)
    requires n <= FragmentCount(|f.data|, 1150) && SealAlike(p, q, keys, Numbers(sequence, n))
    ensures FirstPackets(p, sessionId, Armed(Some(keys)), f, sequence, n)
            == FirstPackets(q, sessionId, Armed(Some(keys)), f, sequence, n)
    decreases n
  {
    hide EncryptWith, HeaderBytes, VideoHeader, Chunk, FragmentCount, SealAlike;
    if n != 0 {
      var number := Next(sequence, n - 1);
      AlikeParts(p, q, keys, Numbers(sequence, n - 1), [number]);
      FrameAlike(p, q, sessionId, keys, f, sequence, n - 1);
      AlikeAt(p, q, keys, [number], 0, HeaderBytes(VideoHeader(sessionId, Armed(Some(keys)), f, n - 1, number)),
              Chunk(f.data, 1150, n - 1));
    }
  }

  lemma SendAlike(p: Primitives, q: Primitives, sessionId: uint32, keys: SessionKeys, op: Send, sequence: uint32)
    requires SealAlike(p, q, keys, SendBatch(p, sessionId, Armed(Some(keys)), op, sequence).encrypted)
    ensures SendBatch(p, sessionId, Armed(Some(keys)), op, sequence)
            == SendBatch(q, sessionId, Armed(Some(keys)), op, sequence)
  {
    hide EncryptWith, HeaderBytes, AudioHeader, FirstPackets, FragmentCount, SealAlike;
    match op
    case Video(f) =>
      FrameAlike(p, q, sessionId, keys, f, sequence, FragmentCount(|f.data|, 1150));
    case Audio(audio, id, ts) =>
      if 0 < |audio| <= 1150 {
        AlikeAt(p, q, keys, [sequence], 0,
                HeaderBytes(AudioHeader(sessionId, Armed(Some(keys)), |audio|, id, ts, sequence)), audio);
      }
  }

  /**
    The numbers that a run records as handed to Encrypt are those it seals under: what seals alike under their nonces
    gives the same packets and failures.
  */
  lemma {:induction false} OnlyListedSealed(p: Primitives, q: Primitives, sessionId: uint32, keys: SessionKeys,
                                            ops: seq<Send>, sequence: uint32)
    requires SealAlike(p, q, keys, SendAll(p, sessionId, Armed(Some(keys)), ops, sequence).encrypted)
    ensures SendAll(p, sessionId, Armed(Some(keys)), ops, sequence)
            == SendAll(q, sessionId, Armed(Some(keys)), ops, sequence)
  {
    if ops != [] {
      hide SealAlike, SendBatch;
      var first := SendBatch(p, sessionId, Armed(Some(keys)), ops[0], sequence);
      var rest := SendAll(p, sessionId, Armed(Some(keys)), ops[1..], first.sequence);
      AlikeParts(p, q, keys, first.encrypted, rest.encrypted);
      SendAlike(p, q, sessionId, keys, ops[0], sequence);
      OnlyListedSealed(p, q, sessionId, keys, ops[1..], first.sequence);
    }
  }
}
