/** The receiver: datagrams become frames again. */
module Reassembler {
  import opened Wrappers
  import opened Bytes
  import opened Protocol
  import opened Crypto
  import Filter = ReplayFilter
  import opened Packetizer
  import opened Sequences

  const MAX_PENDING: nat := 16

  // ---- Admission: everything that depends on the datagram and the key alone ----

  /** A packet that passed header, length, stream, downgrade and authentication checks. */
  datatype Admitted = Admitted(header: PacketHeader, payload: seq<byte>)

  function Admit(p: Primitives, mode: Arming, d: seq<byte>): Option<Admitted> {
    var parsed := ParseHeader(d);
    if parsed.None? then None else
    var h := parsed.value;
    if |d| < HEADER_SIZE + h.payloadLength then None
    else if h.streamId != VIDEO_STREAM && h.streamId != AUDIO_STREAM then None
    else
      var body := d[HEADER_SIZE..HEADER_SIZE + h.payloadLength];
      if h.IsEncrypted() then
        if mode.Plain? then None
        else
          var text := DecryptWith(p, mode.keys, body, h.sequence, d[..HEADER_SIZE]);
          if text.None? then None else Some(Admitted(h, text.value))
      else if mode.Armed? then None // downgrade protection
      else Some(Admitted(h, body))
  }

  // ---- Collection ----

  datatype PendingFrame = PendingFrame(
    frameId: uint32,
    timestampUs: uint64,
    isKeyframe: bool,
    totalFragments: uint16,
    receivedFragments: uint16,
    fragments: map<uint16, seq<byte>>)

  const EMPTY_PENDING: PendingFrame := PendingFrame(0, 0, false, 0, 0, map[])

  type PendingFrames = map<uint32, PendingFrame>

  datatype State = State(
    pending: PendingFrames,
    lastEmitted: uint32,
    waiting: bool,
    sessionLocked: bool,
    expectedSession: uint32,
    replay: Filter.State)

  const INITIAL: State := State(map[], 0, true, false, 0, Filter.INITIAL)

  /** One call's visible effects: its result and the callbacks it made. */
  datatype Effects = Effects(accepted: bool, frame: Option<VideoFrame>, missingKeyframe: Option<uint32>)

  const REFUSED: Effects := Effects(false, None, None)

  datatype Outcome = Outcome(state: State, effects: Effects)

  predicate IsSmallest(s: set<uint32>, k: uint32) {
    k in s && forall j :: j in s ==> k <= j
  }

  lemma {:induction false} SmallestExists(s: set<uint32>) returns (m: uint32)
    requires s != {}
    ensures IsSmallest(s, m)
  {
    m :| m in s;
    if s != {m} {
      var was, rest := m, s - {m};
      var other := SmallestExists(rest);
      assert s == rest + {was};
      if other < m { m := other; }
    }
  }

  /** The key that the ordered map's begin() points at. */
  function Smallest(s: set<uint32>): (k: uint32)
    requires s != {}
    ensures IsSmallest(s, k)
  {
    assert exists k :: IsSmallest(s, k) by { var m := SmallestExists(s); }
    var k :| IsSmallest(s, k);
    k
  }

  /** The fragments present among the first n, joined in index order. */
  function Joined(fragments: map<uint16, seq<byte>>, n: uint16): seq<byte>
    decreases n
  {
    if n == 0 then []
    else Joined(fragments, n - 1) + if n - 1 in fragments then fragments[n - 1] else []
  }

  /** An entry whose frame id is still the sentinel 0 takes its description from the packet. */
  function Opened(pending: PendingFrame, h: PacketHeader): PendingFrame {
    if pending.frameId != 0 then pending
    else PendingFrame(h.frameId, h.timestampUs, h.IsKeyframe(), h.fragmentCount, 0, pending.fragments)
  }

  function Increment16(n: uint16): uint16 {
    if n == 0xFFFF then 0 else n + 1
  }

  /** The first copy of a fragment is kept and counted, in 16 bits. */
  function WithFragment(pending: PendingFrame, index: uint16, payload: seq<byte>): PendingFrame {
    if index in pending.fragments then pending
    else pending.(fragments := pending.fragments[index := payload],
                  receivedFragments := Increment16(pending.receivedFragments))
  }

  function Entry(frames: PendingFrames, a: Admitted): PendingFrame {
    var entry := if a.header.frameId in frames then frames[a.header.frameId] else EMPTY_PENDING;
    WithFragment(Opened(entry, a.header), a.header.fragmentIndex, a.payload)
  }

  predicate Complete(pending: PendingFrame) {
    pending.receivedFragments == pending.totalFragments && pending.totalFragments > 0
  }

  function FrameOf(pending: PendingFrame): VideoFrame {
    VideoFrame(pending.frameId, pending.timestampUs, pending.isKeyframe,
               Joined(pending.fragments, pending.totalFragments))
  }

  function Newer(frames: PendingFrames, id: uint32): PendingFrames {
    map k | k in frames && k > id :: frames[k]
  }

  function Trimmed(frames: PendingFrames): PendingFrames {
    if |frames| > MAX_PENDING then frames - {Smallest(frames.Keys)} else frames
  }

  /** Not newer than the last emitted frame, by less than 2^31 - 1. */
  predicate Stale(lastEmitted: uint32, id: uint32) {
    id <= lastEmitted && lastEmitted - id < 0x7FFF_FFFF
  }

  /** The session id that the reassembler is pinned to once it has seen this packet. */
  function Pinned(s: State, sessionId: uint32): State {
    if s.sessionLocked then s else s.(sessionLocked := true, expectedSession := sessionId)
  }

  /** A packet that is neither replayed, foreign, early nor stale. */
  function Collect(s: State, a: Admitted): Outcome {
    var entry := Entry(s.pending, a);
    var frames := s.pending[a.header.frameId := entry];
    if Complete(entry) then
      var frame := FrameOf(entry);
      Outcome(s.(lastEmitted := frame.frameId, waiting := false, pending := Newer(frames, frame.frameId)),
              Effects(true, Some(frame), None))
    else
      Outcome(s.(pending := Trimmed(frames)), Effects(true, None, None))
  }

  function Receive(s: State, a: Admitted): Outcome {
    var verdict := Filter.Step(s.replay, a.header.sequence);
    if !verdict.isFresh then Outcome(s, REFUSED) else
    var s1 := Pinned(s.(replay := verdict.state), a.header.sessionId);
    if a.header.sessionId != s1.expectedSession then Outcome(s1, REFUSED)
    else if s1.waiting && !a.header.IsKeyframe() then
      Outcome(s1, Effects(false, None, Some(a.header.frameId)))
    else if !s1.waiting && Stale(s1.lastEmitted, a.header.frameId) then Outcome(s1, REFUSED)
    else Collect(s1, a)
  }

  function Push(p: Primitives, mode: Arming, s: State, d: seq<byte>): Outcome {
    var a := Admit(p, mode, d);
    if a.None? then Outcome(s, REFUSED) else Receive(s, a.value)
  }

  /** SetCrypto forgets replay history and session pin but not the pending fragments. */
  function Rearmed(s: State): State {
    s.(replay := Filter.INITIAL, sessionLocked := false)
  }

  function Expecting(s: State, sessionId: uint32): State {
    s.(sessionLocked := true, expectedSession := sessionId)
  }

  /** Reset leaves the expected session id behind, unpinned. */
  function Restarted(s: State): State {
    INITIAL.(expectedSession := s.expectedSession)
  }

  // ---- Runs ----

  /** What a run of pushes emits and complains about. */
  datatype Trace = Trace(state: State, frames: seq<VideoFrame>, missing: seq<uint32>)

  function Listed<T>(o: Option<T>): (s: seq<T>) {
    if o.Some? then [o.value] else []
  }

  function Run(p: Primitives, mode: Arming, s: State, ds: seq<seq<byte>>): Trace
    decreases |ds|
  {
    if ds == [] then Trace(s, [], [])
    else
      var o := Push(p, mode, s, ds[0]);
      var rest := Run(p, mode, o.state, ds[1..]);
      Trace(rest.state, Listed(o.effects.frame) + rest.frames, Listed(o.effects.missingKeyframe) + rest.missing)
  }

  lemma {:induction false} RunConcat(p: Primitives, mode: Arming, s: State, a: seq<seq<byte>>, b: seq<seq<byte>>)
    ensures var first := Run(p, mode, s, a);
            var second := Run(p, mode, first.state, b);
      Run(p, mode, s, a + b)
        == Trace(second.state, first.frames + second.frames, first.missing + second.missing)
    decreases |a|
  {
    hide Push, Listed, Run;
    if a == [] {
      RunNothing(p, mode, s, a);
      NothingJoined(a, b);
      NothingJoined([], Run(p, mode, s, b).frames);
      NothingJoined([], Run(p, mode, s, b).missing);
    } else {
      var o := Push(p, mode, s, a[0]);
      var first := Run(p, mode, o.state, a[1..]);
      var second := Run(p, mode, first.state, b);
      RunConcat(p, mode, o.state, a[1..], b);
      TailOfJoined(a, b);
      RunStep(p, mode, s, a);
      RunStep(p, mode, s, a + b);
      Reassociate(Listed(o.effects.frame), first.frames, second.frames);
      Reassociate(Listed(o.effects.missingKeyframe), first.missing, second.missing);
    }
  }

  lemma RunNothing(p: Primitives, mode: Arming, s: State, ds: seq<seq<byte>>)
    requires ds == []
    ensures Run(p, mode, s, ds) == Trace(s, [], [])
  {
  }

  lemma RunStep(p: Primitives, mode: Arming, s: State, ds: seq<seq<byte>>)
    requires ds != []
    ensures var o := Push(p, mode, s, ds[0]);
            var rest := Run(p, mode, o.state, ds[1..]);
      Run(p, mode, s, ds)
        == Trace(rest.state, Listed(o.effects.frame) + rest.frames, Listed(o.effects.missingKeyframe) + rest.missing)
  {
    hide Push, Listed;
  }

  // ---- The mutable reassembler ----

  class FrameReassembler {
    const primitives: Primitives
    var pendingFrames: PendingFrames
    var lastEmittedFrameId: uint32
    var waitingForKeyframe: bool
    var crypto: SessionCrypto?
    var sessionLocked: bool
    var expectedSessionId: uint32
    const replayFilter: Filter.ReplayFilter

    ghost predicate Valid()
      reads this
    {
      crypto != null ==> crypto.primitives == primitives
    }

    constructor (p: Primitives)
      ensures Valid() && primitives == p && fresh(replayFilter)
      ensures Value() == INITIAL && Mode() == Plain
    {
      primitives := p;
      pendingFrames, lastEmittedFrameId, waitingForKeyframe := map[], 0, true;
      crypto, sessionLocked, expectedSessionId := null, false, 0;
      replayFilter := new Filter.ReplayFilter();
    }

    function Mode(): Arming
      reads this`crypto, crypto
    {
      if crypto == null then Plain else Armed(crypto.Keys())
    }

    function Value(): State
      reads this, replayFilter
    {
      State(pendingFrames, lastEmittedFrameId, waitingForKeyframe, sessionLocked, expectedSessionId,
            replayFilter.Value())
    }

    method SetCrypto(c: SessionCrypto?)
      requires c != null ==> c.primitives == primitives
      modifies this, replayFilter
      ensures Valid() && crypto == c
      ensures Value() == Rearmed(old(Value()))
    {
      crypto := c;
      replayFilter.Clear();
      sessionLocked := false;
    }

    method SetExpectedSessionId(sessionId: uint32)
      requires Valid()
      modifies this`expectedSessionId, this`sessionLocked
      ensures Valid() && Value() == Expecting(old(Value()), sessionId)
    {
      expectedSessionId := sessionId;
      sessionLocked := true;
    }

    method Reset()
      requires Valid()
      modifies this, replayFilter
      ensures Valid() && crypto == old(crypto)
      ensures Value() == Restarted(old(Value()))
    {
      pendingFrames := map[];
      lastEmittedFrameId := 0;
      waitingForKeyframe := true;
      replayFilter.Clear();
      sessionLocked := false;
    }

    method PushPacket(packetData: seq<byte>) returns (effects: Effects)
      requires Valid()
      modifies this`pendingFrames, this`lastEmittedFrameId, this`waitingForKeyframe
      modifies this`sessionLocked, this`expectedSessionId, replayFilter
      ensures Valid()
      ensures Outcome(Value(), effects) == Push(primitives, old(Mode()), old(Value()), packetData)
    {
      hide Admit, Collect, Filter.SetBit, Filter.ShiftLeft, Filter.Bit;
      var a := Admission(packetData);
      if a.None? { return REFUSED; }
      var header := a.value.header;

      var isFresh := replayFilter.Accept(header.sequence);
      if !isFresh { return REFUSED; }

      if !sessionLocked {
        expectedSessionId := header.sessionId;
        sessionLocked := true;
      } else if header.sessionId != expectedSessionId {
        return REFUSED;
      }
      if waitingForKeyframe && !header.IsKeyframe() {
        return Effects(false, None, Some(header.frameId));
      }
      if !waitingForKeyframe && header.frameId <= lastEmittedFrameId
         && lastEmittedFrameId - header.frameId < 0x7FFF_FFFF {
        return REFUSED;
      }
      effects := CollectFragment(a.value);
    }

    /** The checks made before the lock is taken: they touch no state. */
    method Admission(packetData: seq<byte>) returns (a: Option<Admitted>)
      requires Valid()
      ensures a == Admit(primitives, Mode(), packetData)
    {
      if |packetData| < HEADER_SIZE { return None; }
      var parsed := ParseHeader(packetData);
      if parsed.None? { return None; }
      var header := parsed.value;
      if |packetData| < HEADER_SIZE + header.payloadLength { return None; }
      if header.streamId != VIDEO_STREAM && header.streamId != AUDIO_STREAM { return None; }
      var payload := packetData[HEADER_SIZE..HEADER_SIZE + header.payloadLength];
      if header.IsEncrypted() {
        if crypto == null { return None; }
        var text := crypto.Decrypt(payload, header.sequence, packetData[..HEADER_SIZE]);
        if text.None? { return None; }
        payload := text.value;
      } else if crypto != null {
        return None;
      }
      a := Some(Admitted(header, payload));
    }

    /** Stores the fragment; emits the frame it completes, or trims the backlog. */
    method CollectFragment(a: Admitted) returns (effects: Effects)
      requires Valid()
      modifies this`pendingFrames, this`lastEmittedFrameId, this`waitingForKeyframe
      ensures Valid()
      ensures Outcome(Value(), effects) == Collect(old(Value()), a)
    {
      hide Entry, Joined, Newer, IsSmallest;
      StoreFragment(a);
      var pending := pendingFrames[a.header.frameId];
      if pending.receivedFragments == pending.totalFragments && pending.totalFragments > 0 {
        var data := Reassemble(pending);
        var frame := VideoFrame(pending.frameId, pending.timestampUs, pending.isKeyframe, data);
        lastEmittedFrameId := frame.frameId;
        waitingForKeyframe := false;
        EraseUpTo(frame.frameId);
        return Effects(true, Some(frame), None);
      }
      if |pendingFrames| > MAX_PENDING {
        pendingFrames := pendingFrames - {Smallest(pendingFrames.Keys)};
      }
      effects := Effects(true, None, None);
    }

    method StoreFragment(a: Admitted)
      modifies this`pendingFrames
      ensures pendingFrames == old(pendingFrames)[a.header.frameId := Entry(old(pendingFrames), a)]
    {
      var header := a.header;
      var pending := if header.frameId in pendingFrames then pendingFrames[header.frameId] else EMPTY_PENDING;
      if pending.frameId == 0 {
        pending := pending.(frameId := header.frameId, timestampUs := header.timestampUs,
                            isKeyframe := header.IsKeyframe(), totalFragments := header.fragmentCount,
                            receivedFragments := 0);
      }
      if header.fragmentIndex !in pending.fragments {
        pending := pending.(fragments := pending.fragments[header.fragmentIndex := a.payload],
                            receivedFragments := Increment16(pending.receivedFragments));
      }
      pendingFrames := pendingFrames[header.frameId := pending];
    }

    method Reassemble(pending: PendingFrame) returns (data: seq<byte>)
      ensures data == Joined(pending.fragments, pending.totalFragments)
    {
      data := [];
      var i := 0;
      while i < pending.totalFragments
        invariant 0 <= i <= pending.totalFragments
        invariant data == Joined(pending.fragments, i)
      {
        if i in pending.fragments {
          data := data + pending.fragments[i];
        }
        i := i + 1;
      }
    }

    /** Erases from the front of the ordered map while the front is not newer than the frame. */
    method EraseUpTo(id: uint32)
      modifies this`pendingFrames
      ensures pendingFrames == Newer(old(pendingFrames), id)
    {
      while pendingFrames != map[] && Smallest(pendingFrames.Keys) <= id
        invariant forall k :: k in pendingFrames ==>
          k in old(pendingFrames) && pendingFrames[k] == old(pendingFrames)[k]
        invariant forall k :: k in old(pendingFrames) && k > id ==> k in pendingFrames
        decreases |pendingFrames|
      {
        pendingFrames := pendingFrames - {Smallest(pendingFrames.Keys)};
      }
    }
  }
}
