/**
  The phone's native sender: an ephemeral key pair per pairing round, the keys that result from it, and the
  packetizer that they arm.
*/
module NativeSender {
  import opened Wrappers
  import opened Bytes
  import opened Crypto
  import opened Packetizer
  import Reassembler
  import ReassemblerInvariants

  /**
    pending: this round's key pair; crypto: the round's key object, if any (None is null); mode: the packetizer's;
    shared: the packetizer holds this round's key object itself.
  */
  datatype State = State(pending: KeyPair, crypto: Option<Option<SessionKeys>>, mode: Arming, shared: bool)

  const INITIAL: State := State(KeyPair(ZERO_KEY, ZERO_KEY), None, Plain, false)

  /** A new round has its own key object; the packetizer keeps the old one. */
  function AfterBegin(s: State, keys: KeyPair): State {
    s.(pending := keys, crypto := Some(None), shared := false)
  }

  function AfterComplete(p: Primitives, s: State, clientPub: seq<byte>): (State, bool)
    requires p.Laws()
  {
    if s.crypto.None? || |clientPub| != KEY_SIZE then (s, false)
    else
      var keys := Derive(p, true, clientPub, s.pending.publicKey, s.pending.privateKey);
      if keys.None? then (State(s.pending, None, if s.shared then Armed(None) else s.mode, false), false)
      else (State(s.pending, Some(keys), Armed(keys), true), true)
  }

  /**
    A completed round arms the packetizer with the server's keys of the schedule: what the phone sends is keyed by
    the s2c labels. A well-formed key that cannot be used drops the round's key object and, where the packetizer
    holds that very object, its keys.
  */
  lemma PhoneKeysScheduled(p: Primitives, s: State, clientPub: Key, lo: Key, hi: Key)
    requires p.Laws() && s.crypto.Some?
    requires NotAfter(lo, hi)
    requires (lo, hi) == (s.pending.publicKey, clientPub) || (lo, hi) == (clientPub, s.pending.publicKey)
    ensures var (after, ok) := AfterComplete(p, s, clientPub);
            var prk := Extracted(p, s.pending.privateKey, clientPub);
      && after.pending == s.pending
      && (ok <==> prk.Some? && exists k :: Scheduled(p, prk.value, lo, hi, true, k))
      && (ok ==> after.mode.Armed? && after.mode.keys.Some? && after.crypto == Some(after.mode.keys) && after.shared
                 && Scheduled(p, prk.value, lo, hi, true, after.mode.keys.value))
      && (!ok ==> after.crypto == None && !after.shared && after.mode == if s.shared then Armed(None) else s.mode)
  {
    DeriveIsScheduled(p, true, clientPub, s.pending.publicKey, s.pending.privateKey, lo, hi);
    hide Derive, Scheduled, NotAfter;
  }

  /** Calls of BeginPairing and CompletePairing, in any order. */
  datatype Call = Begin(keys: KeyPair) | Complete(clientPub: seq<byte>)

  function AfterCall(p: Primitives, s: State, call: Call): State
    requires p.Laws()
  {
    match call
    case Begin(keys) => AfterBegin(s, keys)
    case Complete(key) => AfterComplete(p, s, key).0
  }

  function AfterCalls(p: Primitives, s: State, calls: seq<Call>): State
    requires p.Laws()
    decreases |calls|
  {
    if calls == [] then s else AfterCalls(p, AfterCall(p, s, calls[0]), calls[1..])
  }

  /** Once armed, the packetizer never sends in the clear again, whatever rounds follow. */
  lemma {:induction false} ArmedStaysArmed(p: Primitives, s: State, calls: seq<Call>)
    requires p.Laws() && s.mode.Armed?
    ensures AfterCalls(p, s, calls).mode.Armed?
    decreases |calls|
  {
    if calls != [] { ArmedStaysArmed(p, AfterCall(p, s, calls[0]), calls[1..]); }
  }

  /** A round that was only begun leaves the packetizer as it was: the old keys stay in use until a completion. */
  lemma BegunRoundSendsAsBefore(p: Primitives, s: State, keys: KeyPair, clientPub: seq<byte>)
    requires p.Laws() && |clientPub| != KEY_SIZE
    ensures var begun := AfterBegin(s, keys);
      && begun.mode == s.mode && begun.pending == keys && begun.crypto == Some(None)
      && AfterComplete(p, begun, clientPub) == (begun, false)
  {
  }

  /** Without a round, or with a key of the wrong length, a completion is refused and changes nothing. */
  lemma CompletionNeedsRound(p: Primitives, s: State, clientPub: seq<byte>)
    requires p.Laws() && (s.crypto.None? || |clientPub| != 32)
    ensures AfterComplete(p, s, clientPub) == (s, false)
  {
  }

  // ---- Frame numbering ----

  /** An encoder output. */
  datatype Nal = Nal(data: seq<byte>, isKeyframe: bool, timestampUs: uint64)

  /** The frames that a run of SendVideoNal calls hands to the packetizer: empty outputs are not counted. */
  function Numbered(counter: uint32, nals: seq<Nal>): seq<VideoFrame>
    decreases |nals|
  {
    if nals == [] then []
    else if nals[0].data == [] then Numbered(counter, nals[1..])
    else
      var id := Increment(counter);
      [VideoFrame(id, nals[0].timestampUs, nals[0].isKeyframe, nals[0].data)] + Numbered(id, nals[1..])
  }

  function NonEmpty(nals: seq<Nal>): seq<Nal> {
    if nals == [] then [] else (if nals[0].data == [] then [] else [nals[0]]) + NonEmpty(nals[1..])
  }

  /** The frames are the non-empty outputs, in order, with their data, time and keyframe mark. */
  lemma {:induction false} NumberedCarries(counter: uint32, nals: seq<Nal>)
    ensures var frames, kept := Numbered(counter, nals), NonEmpty(nals);
      && |frames| == |kept|
      && forall i :: 0 <= i < |kept| ==> Nal(frames[i].data, frames[i].isKeyframe, frames[i].timestampUs) == kept[i]
    decreases |nals|
  {
    if nals != [] { NumberedCarries(if nals[0].data == [] then counter else Increment(counter), nals[1..]); }
  }

  lemma {:induction false} NumberedIds(counter: uint32, nals: seq<Nal>, i: nat)
    requires i < |Numbered(counter, nals)| && counter + |Numbered(counter, nals)| < SEQUENCES
    ensures Numbered(counter, nals)[i].frameId == counter + 1 + i
    decreases |nals|
  {
    if nals[0].data == [] {
      NumberedIds(counter, nals[1..], i);
    } else if i > 0 {
      NumberedIds(counter + 1, nals[1..], i - 1);
    }
  }

  /**
    From a new sender, ids increase, and they are those that the order theorems cover for the first 2^31 - 1
    frames. To that point and no further the receiver's stale test recognises, whichever frame was emitted last,
    every late packet of that frame or of an earlier one.
  */
  lemma FrameIdsCoveredIff(nals: seq<Nal>)
    requires |Numbered(0, nals)| < SEQUENCES
    ensures var frames := Numbered(0, nals);
      && ReassemblerInvariants.StrictlyIncreasing(frames)
      && (|frames| <= 0x7FFF_FFFF ==>
            forall i :: 0 <= i < |frames| ==> ReassemblerInvariants.Numbered(frames[i].frameId))
      && ((forall i, j :: 0 <= i <= j < |frames| ==> Reassembler.Stale(frames[j].frameId, frames[i].frameId))
          <==> |frames| <= 0x7FFF_FFFF)
  {
    var frames := Numbered(0, nals);
    forall i | 0 <= i < |frames| ensures frames[i].frameId == i + 1 {
      NumberedIds(0, nals, i);
    }
    hide Numbered;
    if |frames| > 0x7FFF_FFFF {
      assert !Reassembler.Stale(frames[0x7FFF_FFFF].frameId, frames[0].frameId);
    }
  }

  // ---- The mutable sender ----

  class NativeSenderContext {
    const primitives: Primitives
    const packetizer: Packetizer
    var frameCounter: uint32
    var pendingKeys: KeyPair
    var crypto: SessionCrypto?

    ghost predicate Valid()
      reads this, packetizer
    {
      && primitives.Laws() && packetizer.primitives == primitives && packetizer.Valid()
      && (crypto != null ==> crypto.primitives == primitives)
    }

    constructor (p: Primitives, sessionId: uint32)
      requires p.Laws()
      ensures Valid() && Value() == INITIAL && frameCounter == 0 && primitives == p
      ensures packetizer.sessionId == sessionId && fresh(packetizer)
    {
      primitives := p;
      packetizer := new Packetizer(p, sessionId);
      frameCounter, pendingKeys, crypto := 0, KeyPair(ZERO_KEY, ZERO_KEY), null;
    }

    function Value(): State
      reads this, crypto, packetizer`crypto, packetizer.crypto
    {
      State(pendingKeys, if crypto == null then None else Some(crypto.Keys()), packetizer.Mode(),
            crypto != null && crypto == packetizer.crypto)
    }

    /** `keys` is what the key pair generator drew; the result is the public half. */
    method BeginPairing(keys: KeyPair) returns (publicKey: Key)
      requires Valid()
      modifies this`pendingKeys, this`crypto
      ensures Valid() && Value() == AfterBegin(old(Value()), keys) && publicKey == keys.publicKey
      ensures fresh(crypto)
    {
      pendingKeys := keys;
      crypto := new SessionCrypto(primitives);
      publicKey := pendingKeys.publicKey;
    }

    method CompletePairing(clientPub: seq<byte>) returns (ok: bool)
      requires Valid()
      modifies this`crypto, crypto, packetizer`crypto
      ensures Valid()
      ensures (Value(), ok) == AfterComplete(primitives, old(Value()), clientPub)
    {
      if crypto == null {
        return false;
      }
      if |clientPub| != KEY_SIZE {
        return false;
      }
      ok := crypto.DeriveSessionKeys(true, clientPub, pendingKeys.publicKey, pendingKeys.privateKey);
      if !ok {
        crypto.Reset();
        crypto := null;
        return;
      }
      packetizer.SetCrypto(crypto);
    }

    /** Sent packets, in order; nothing is sent or counted for an empty encoder output. */
    method SendVideoNal(nal: Nal) returns (packets: seq<seq<byte>>)
      requires Valid()
      modifies this`frameCounter, packetizer`packetSequence, packetizer`encrypted
      ensures Valid() && Value() == old(Value())
      ensures nal.data == [] ==> packets == [] && frameCounter == old(frameCounter)
                                 && packetizer.packetSequence == old(packetizer.packetSequence)
      ensures nal.data != [] ==>
        && Numbered(old(frameCounter), [nal]) == [VideoFrame(frameCounter, nal.timestampUs, nal.isKeyframe, nal.data)]
        && var b := FrameBatch(primitives, packetizer.sessionId, packetizer.Mode(),
                               VideoFrame(frameCounter, nal.timestampUs, nal.isKeyframe, nal.data),
                               old(packetizer.packetSequence));
           packets == b.packets && packetizer.packetSequence == b.sequence
    {
      if nal.data == [] {
        return [];
      }
      frameCounter := Increment(frameCounter);
      packets := packetizer.PacketizeFrame(VideoFrame(frameCounter, nal.timestampUs, nal.isKeyframe, nal.data));
    }
  }
}
