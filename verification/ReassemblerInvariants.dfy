/** What every sequence of calls on a reassembler keeps, whatever bytes arrive. */
module ReassemblerInvariants {
  import opened Wrappers
  import opened Bytes
  import opened Crypto
  import opened Packetizer
  import Filter = ReplayFilter
  import opened Reassembler

  /** The public calls. */
  datatype Op =
    | Datagram(bytes: seq<byte>)
    | Arm(mode: Arming)
    | Expect(sessionId: uint32)
    | Restart

  datatype Endpoint = Endpoint(mode: Arming, state: State)

  const FRESH: Endpoint := Endpoint(Plain, Reassembler.INITIAL)

  function Apply(p: Primitives, e: Endpoint, op: Op): (Endpoint, Effects) {
    match op
    case Datagram(d) =>
      var o := Push(p, e.mode, e.state, d);
      (e.(state := o.state), o.effects)
    case Arm(mode) => (Endpoint(mode, Rearmed(e.state)), REFUSED)
    case Expect(id) => (e.(state := Expecting(e.state, id)), REFUSED)
    case Restart => (e.(state := Restarted(e.state)), REFUSED)
  }

  datatype Log = Log(end: Endpoint, frames: seq<VideoFrame>)

  function ApplyAll(p: Primitives, e: Endpoint, ops: seq<Op>): Log
    decreases |ops|
  {
    if ops == [] then Log(e, [])
    else
      var (next, effects) := Apply(p, e, ops[0]);
      var rest := ApplyAll(p, next, ops[1..]);
      Log(rest.end, Listed(effects.frame) + rest.frames)
  }

  // ---- Bounds and bookkeeping ----

  /** The count equals the fragments held and stays below a positive total (id 0 is the unopened sentinel). */
  ghost predicate Counted(id: uint32, f: PendingFrame) {
    && f.frameId == id
    && (id != 0 ==>
          && f.receivedFragments == |f.fragments| % 0x1_0000
          && (f.totalFragments > 0 ==> |f.fragments| < f.totalFragments))
  }

  ghost predicate Inv(s: State) {
    && |s.pending| <= 16
    && (forall id :: id in s.pending ==> Counted(id, s.pending[id]))
    && (s.waiting ==> forall id :: id in s.pending ==> s.pending[id].isKeyframe)
  }

  lemma IncrementMod(n: nat)
    ensures (n + 1) % 0x1_0000 == Increment16(n % 0x1_0000)
  {
  }

  lemma EntryCounted(frames: PendingFrames, a: Admitted)
    requires a.header.frameId in frames ==> Counted(a.header.frameId, frames[a.header.frameId])
    ensures var e := Entry(frames, a);
      && e.frameId == a.header.frameId
      && (!Complete(e) ==> Counted(a.header.frameId, e))
      && (a.header.frameId != 0 ==> e.receivedFragments == |e.fragments| % 0x1_0000)
  {
    var id := a.header.frameId;
    var before := if id in frames then frames[id] else EMPTY_PENDING;
    var entry := Opened(before, a.header);
    if a.header.fragmentIndex !in entry.fragments {
      assert |entry.fragments[a.header.fragmentIndex := a.payload]| == |entry.fragments| + 1;
      assert id != 0 ==> entry.receivedFragments == |entry.fragments| % 0x1_0000;
      IncrementMod(|entry.fragments|);
    }
  }

  lemma NewerShrinks(frames: PendingFrames, id: uint32, newer: uint32)
    requires id in frames && id <= newer
    ensures |Newer(frames, newer)| < |frames|
  {
    assert Newer(frames, newer).Keys < frames.Keys by { assert id !in Newer(frames, newer).Keys; }
    SubsetSmaller(Newer(frames, newer).Keys, frames.Keys);
  }

  lemma {:induction false} SubsetSmaller<T>(a: set<T>, b: set<T>)
    requires a < b
    ensures |a| < |b|
  {
    var rest := b - a;
    assert b == a + rest && rest != {};
    assert |b| == |a| + |rest|;
  }

  lemma StoredSize(frames: PendingFrames, id: uint32, e: PendingFrame)
    ensures |frames[id := e]| <= |frames| + 1
  {
    assert frames[id := e].Keys == frames.Keys + {id};
    assert |frames.Keys + {id}| <= |frames.Keys| + 1;
  }

  /** What stays pending was pending or is the packet's entry; a completed entry is emitted and outdates the rest. */
  lemma CollectKeepsEntries(s: State, a: Admitted)
    ensures var e := Entry(s.pending, a);
            var stored := s.pending[a.header.frameId := e];
            var o := Collect(s, a);
      && (forall id :: id in o.state.pending ==>
            id in stored && o.state.pending[id] == stored[id] && (Complete(e) ==> id > e.frameId))
      && o.effects.frame == (if Complete(e) then Some(FrameOf(e)) else None)
      && o.state.waiting == (s.waiting && !Complete(e))
      && o.state.lastEmitted == (if Complete(e) then e.frameId else s.lastEmitted)
  {
    hide Entry, Complete, Joined;
  }

  lemma TrimmedSize(frames: PendingFrames)
    requires |frames| <= MAX_PENDING + 1
    ensures |Trimmed(frames)| <= MAX_PENDING
  {
    if |frames| > MAX_PENDING {
      var oldest := Smallest(frames.Keys);
      assert (frames - {oldest}).Keys == frames.Keys - {oldest};
      assert |frames.Keys - {oldest}| == |frames.Keys| - 1;
    }
  }

  lemma CollectBounded(s: State, a: Admitted)
    requires |s.pending| <= MAX_PENDING && Entry(s.pending, a).frameId == a.header.frameId
    ensures |Collect(s, a).state.pending| <= MAX_PENDING
  {
    hide Entry, Complete, FrameOf, Newer, Trimmed;
    var id := a.header.frameId;
    var e := Entry(s.pending, a);
    StoredSize(s.pending, id, e);
    NewerShrinks(s.pending[id := e], id, id);
    TrimmedSize(s.pending[id := e]);
    EmittedId(e);
  }

  lemma EmittedId(e: PendingFrame)
    ensures FrameOf(e).frameId == e.frameId && FrameOf(e).isKeyframe == e.isKeyframe
  {
  }

  lemma EntryKeyframe(s: State, a: Admitted)
    requires forall id :: id in s.pending ==> s.pending[id].isKeyframe
    requires a.header.IsKeyframe()
    ensures Entry(s.pending, a).isKeyframe
  {
  }

  lemma CollectKeepsInv(s: State, a: Admitted)
    requires Inv(s) && (s.waiting ==> a.header.IsKeyframe())
    ensures Inv(Collect(s, a).state)
    ensures s.waiting && Collect(s, a).effects.frame.Some? ==> Collect(s, a).effects.frame.value.isKeyframe
    ensures Collect(s, a).effects.frame.None? ==> Collect(s, a).state.waiting == s.waiting
  {
    hide Counted, Collect, Entry, Complete, FrameOf;
    EntryCounted(s.pending, a);
    CollectKeepsEntries(s, a);
    CollectBounded(s, a);
    EmittedId(Entry(s.pending, a));
    if s.waiting { EntryKeyframe(s, a); }
  }

  lemma ReceiveKeepsInv(s: State, a: Admitted)
    requires Inv(s)
    ensures Inv(Receive(s, a).state)
    ensures s.waiting && Receive(s, a).effects.frame.Some? ==> Receive(s, a).effects.frame.value.isKeyframe
    ensures Receive(s, a).effects.frame.None? ==> Receive(s, a).state.waiting == s.waiting
  {
    hide Counted, Collect, Entry;
    var s1 := Pinned(s.(replay := Filter.Step(s.replay, a.header.sequence).state), a.header.sessionId);
    if s1.waiting ==> a.header.IsKeyframe() { CollectKeepsInv(s1, a); }
  }

  lemma ApplyKeepsInv(p: Primitives, e: Endpoint, op: Op)
    requires Inv(e.state)
    ensures Inv(Apply(p, e, op).0.state)
    ensures e.state.waiting && Apply(p, e, op).1.frame.Some? ==> Apply(p, e, op).1.frame.value.isKeyframe
    ensures Apply(p, e, op).1.frame.None? && !op.Restart? ==> Apply(p, e, op).0.state.waiting == e.state.waiting
  {
    hide Receive, Admit, Counted;
    if op.Datagram? {
      var a := Admit(p, e.mode, op.bytes);
      if a.Some? { ReceiveKeepsInv(e.state, a.value); }
    }
  }

  /** After every call of every run: at most 16 pending frames, honest counts, only keyframes while waiting. */
  lemma {:induction false} InvAlways(p: Primitives, e: Endpoint, ops: seq<Op>)
    requires Inv(e.state)
    ensures Inv(ApplyAll(p, e, ops).end.state)
    decreases |ops|
  {
    hide Apply, Inv;
    if ops != [] {
      ApplyKeepsInv(p, e, ops[0]);
      InvAlways(p, Apply(p, e, ops[0]).0, ops[1..]);
    }
  }

  lemma InvFromFresh(p: Primitives, ops: seq<Op>)
    ensures Inv(ApplyAll(p, FRESH, ops).end.state)
  {
    InvAlways(p, FRESH, ops);
  }

  /** The first frame emitted after construction or Reset is a keyframe, whatever was sent or re-keyed before it. */
  lemma {:induction false} FirstFrameIsKeyframe(p: Primitives, e: Endpoint, ops: seq<Op>)
    requires Inv(e.state) && e.state.waiting
    requires forall i :: 0 <= i < |ops| ==> !ops[i].Restart?
    ensures var frames := ApplyAll(p, e, ops).frames; frames != [] ==> frames[0].isKeyframe
    decreases |ops|
  {
    hide Apply, Inv;
    if ops != [] {
      ApplyKeepsInv(p, e, ops[0]);
      var (next, effects) := Apply(p, e, ops[0]);
      if effects.frame.None? { FirstFrameIsKeyframe(p, next, ops[1..]); }
    }
  }

  /** The same for a run of pushes with nothing else in between. */
  lemma {:induction false} RunStartsWithKeyframe(p: Primitives, mode: Arming, s: State, ds: seq<seq<byte>>)
    requires Inv(s) && s.waiting
    ensures var frames := Run(p, mode, s, ds).frames; frames != [] ==> frames[0].isKeyframe
    decreases |ds|
  {
    hide Push, Inv;
    if ds != [] {
      ApplyKeepsInv(p, Endpoint(mode, s), Datagram(ds[0]));
      var o := Push(p, mode, s, ds[0]);
      if o.effects.frame.None? { RunStartsWithKeyframe(p, mode, o.state, ds[1..]); }
    }
  }

  // ---- Session pinning ----

  /** Once pinned, a packet of another session reaches nothing but the replay filter. */
  lemma ForeignPacketIsIdle(p: Primitives, mode: Arming, s: State, d: seq<byte>)
    requires s.sessionLocked && Admit(p, mode, d).Some?
    requires Admit(p, mode, d).value.header.sessionId != s.expectedSession
    ensures var o := Push(p, mode, s, d);
      o.effects == REFUSED && o.state == s.(replay := o.state.replay)
  {
    hide Admit, Collect;
  }

  lemma PushKeepsPin(p: Primitives, mode: Arming, s: State, d: seq<byte>)
    ensures var t := Push(p, mode, s, d).state;
      && (s.sessionLocked ==> t.sessionLocked && t.expectedSession == s.expectedSession)
      && (!s.sessionLocked && t.sessionLocked ==>
            Admit(p, mode, d).Some? && t.expectedSession == Admit(p, mode, d).value.header.sessionId)
      && (!s.sessionLocked && !t.sessionLocked ==> t == s)
  {
    hide Admit, Entry, Joined, Complete, Newer, Trimmed;
  }

  /** Over any run the pin never moves; unset, it is taken from an admitted packet of the run. */
  lemma {:induction false} PinNeverMoves(p: Primitives, mode: Arming, s: State, ds: seq<seq<byte>>)
    ensures var t := Run(p, mode, s, ds).state;
      && (s.sessionLocked ==> t.sessionLocked && t.expectedSession == s.expectedSession)
      && (!s.sessionLocked && t.sessionLocked ==>
            exists i :: 0 <= i < |ds| && Admit(p, mode, ds[i]).Some?
              && Admit(p, mode, ds[i]).value.header.sessionId == t.expectedSession)
    decreases |ds|
  {
    hide Push, Admit;
    if ds != [] {
      PushKeepsPin(p, mode, s, ds[0]);
      var next := Push(p, mode, s, ds[0]).state;
      PinNeverMoves(p, mode, next, ds[1..]);
      var t := Run(p, mode, s, ds).state;
      if !next.sessionLocked && t.sessionLocked {
        var i :| 0 <= i < |ds[1..]| && Admit(p, mode, ds[1..][i]).Some?
                 && Admit(p, mode, ds[1..][i]).value.header.sessionId == t.expectedSession;
        assert ds[1..][i] == ds[i + 1];
      }
    }
  }

  // ---- Eviction and the sentinel ----

  /** The cap costs at most one entry, the oldest, and never touches the others. */
  lemma EvictionTakesOldest(s: State, a: Admitted)
    requires Inv(s) && Collect(s, a).effects.frame.None?
    ensures var stored := s.pending[a.header.frameId := Entry(s.pending, a)];
            var kept := Collect(s, a).state.pending;
      && (forall id :: id in kept ==> id in stored && kept[id] == stored[id])
      && (forall id, k :: id in stored && id !in kept && k in kept ==> id < k)
      && |stored| - 1 <= |kept| && (|stored| <= MAX_PENDING ==> kept == stored)
  {
    hide Entry, Complete, Joined, Counted;
    var stored := s.pending[a.header.frameId := Entry(s.pending, a)];
    if |stored| > MAX_PENDING {
      var oldest := Smallest(stored.Keys);
      assert (stored - {oldest}).Keys == stored.Keys - {oldest};
      assert |stored.Keys - {oldest}| == |stored.Keys| - 1;
    }
  }

  /**
    A frame numbered with the sentinel 0 is recounted from scratch by each packet: it is complete exactly when a
    packet announces a single fragment and brings an index that is not held yet.
  */
  lemma SentinelFrameCompletesIff(frames: PendingFrames, a: Admitted)
    requires a.header.frameId == 0
    requires 0 in frames ==> Counted(0, frames[0])
    ensures Entry(frames, a).receivedFragments <= 1
    ensures Complete(Entry(frames, a)) <==>
      a.header.fragmentCount == 1 && !(0 in frames && a.header.fragmentIndex in frames[0].fragments)
  {
  }

  ghost predicate NoSingleSentinel(p: Primitives, mode: Arming, d: seq<byte>) {
    Admit(p, mode, d).Some? ==>
      var h := Admit(p, mode, d).value.header; h.frameId == 0 ==> h.fragmentCount != 1
  }

  lemma PushSentinel(p: Primitives, mode: Arming, s: State, d: seq<byte>)
    requires Inv(s) && NoSingleSentinel(p, mode, d)
    ensures var frame := Push(p, mode, s, d).effects.frame; frame.Some? ==> frame.value.frameId != 0
  {
    hide Admit, Collect, Entry, Complete, Counted, Filter.Step, Stale, Joined;
    var a := Admit(p, mode, d);
    if a.Some? {
      var s1 := Pinned(s.(replay := Filter.Step(s.replay, a.value.header.sequence).state), a.value.header.sessionId);
      EntryCounted(s.pending, a.value);
      if a.value.header.frameId == 0 { SentinelFrameCompletesIff(s.pending, a.value); }
      CollectKeepsEntries(s1, a.value);
    }
  }

  /** So on no run does such a frame of several fragments come out. */
  lemma {:induction false} SentinelFrameNeverEmitted(p: Primitives, mode: Arming, s: State, ds: seq<seq<byte>>)
    requires Inv(s) && forall i :: 0 <= i < |ds| ==> NoSingleSentinel(p, mode, ds[i])
    ensures forall f :: f in Run(p, mode, s, ds).frames ==> f.frameId != 0
    decreases |ds|
  {
    hide Push, Inv, NoSingleSentinel;
    if ds != [] {
      PushSentinel(p, mode, s, ds[0]);
      ApplyKeepsInv(p, Endpoint(mode, s), Datagram(ds[0]));
      SentinelFrameNeverEmitted(p, mode, Push(p, mode, s, ds[0]).state, ds[1..]);
    }
  }

  // ---- Order ----

  /** Ids the sender uses before its counter reaches 2^31. */
  predicate Numbered(id: uint32) { 1 <= id <= 0x7FFF_FFFF }

  /** What the datagram announces, if it is admitted at all. */
  ghost predicate AdmittedIdsNumbered(p: Primitives, mode: Arming, d: seq<byte>) {
    Admit(p, mode, d).Some? ==> Numbered(Admit(p, mode, d).value.header.frameId)
  }

  /** Of the frames with such ids, only those newer than the last emitted one are pending. */
  ghost predicate Ordered(s: State) {
    forall id :: id in s.pending && Numbered(id) ==>
      s.pending[id].frameId == id && (!s.waiting && Numbered(s.lastEmitted) ==> id > s.lastEmitted)
  }

  /** The frame emitted by a step, if any, is newer than everything emitted before it. */
  ghost predicate Advances(before: State, o: Outcome) {
    && (o.effects.frame.Some? ==>
          && !o.state.waiting && o.state.lastEmitted == o.effects.frame.value.frameId
          && Numbered(o.state.lastEmitted)
          && (!before.waiting && Numbered(before.lastEmitted) ==> o.state.lastEmitted > before.lastEmitted))
    && (o.effects.frame.None? ==> o.state.waiting == before.waiting && o.state.lastEmitted == before.lastEmitted)
  }

  lemma CollectKeepsOrder(s: State, a: Admitted)
    requires Ordered(s) && Numbered(a.header.frameId)
    requires !s.waiting && Numbered(s.lastEmitted) ==> a.header.frameId > s.lastEmitted
    ensures Ordered(Collect(s, a).state) && Advances(s, Collect(s, a))
  {
    hide Entry, Complete, Joined, Collect;
    EntryId(s.pending, a);
    CollectKeepsEntries(s, a);
  }

  lemma EntryId(frames: PendingFrames, a: Admitted)
    requires a.header.frameId in frames ==> frames[a.header.frameId].frameId in {0, a.header.frameId}
    ensures Entry(frames, a).frameId == a.header.frameId
  {
  }

  lemma ReceiveKeepsOrder(s: State, a: Admitted)
    requires Ordered(s) && Numbered(a.header.frameId)
    ensures Ordered(Receive(s, a).state) && Advances(s, Receive(s, a))
  {
    hide Collect, Filter.Step;
    var s1 := Pinned(s.(replay := Filter.Step(s.replay, a.header.sequence).state), a.header.sessionId);
    if !s1.waiting && Numbered(s1.lastEmitted) ==> a.header.frameId > s1.lastEmitted { CollectKeepsOrder(s1, a); }
  }

  /** Whatever ids arrive, and whatever else is called. */
  lemma AnyReceiveKeepsOrder(s: State, a: Admitted)
    requires Inv(s) && Ordered(s)
    ensures Ordered(Receive(s, a).state)
  {
    hide Collect, Filter.Step, Counted, Numbered, Stale;
    var s1 := Pinned(s.(replay := Filter.Step(s.replay, a.header.sequence).state), a.header.sessionId);
    if s1.waiting || !Stale(s1.lastEmitted, a.header.frameId) { AnyCollectKeepsOrder(s1, a); }
  }

  lemma AnyCollectKeepsOrder(s: State, a: Admitted)
    requires Inv(s) && Ordered(s) && (s.waiting || !Stale(s.lastEmitted, a.header.frameId))
    ensures Ordered(Collect(s, a).state)
  {
    hide Entry, Complete, Joined, Collect, Counted;
    EntryCounted(s.pending, a);
    CollectKeepsEntries(s, a);
  }

  lemma ApplyKeepsOrder(p: Primitives, e: Endpoint, op: Op)
    requires Inv(e.state) && Ordered(e.state)
    ensures Ordered(Apply(p, e, op).0.state)
  {
    hide Receive, Admit, Inv;
    if op.Datagram? {
      var a := Admit(p, e.mode, op.bytes);
      if a.Some? { AnyReceiveKeepsOrder(e.state, a.value); }
    }
  }

  lemma {:induction false} OrderedAlways(p: Primitives, e: Endpoint, ops: seq<Op>)
    requires Inv(e.state) && Ordered(e.state)
    ensures Ordered(ApplyAll(p, e, ops).end.state)
    decreases |ops|
  {
    hide Apply, Inv, Ordered;
    if ops != [] {
      ApplyKeepsInv(p, e, ops[0]);
      ApplyKeepsOrder(p, e, ops[0]);
      OrderedAlways(p, Apply(p, e, ops[0]).0, ops[1..]);
    }
  }

  /** Both survive any run of pushes. */
  lemma {:induction false} RunKeeps(p: Primitives, mode: Arming, s: State, ds: seq<seq<byte>>)
    requires Inv(s) && Ordered(s)
    ensures Inv(Run(p, mode, s, ds).state) && Ordered(Run(p, mode, s, ds).state)
    decreases |ds|
  {
    hide Push, Inv, Ordered;
    if ds != [] {
      ApplyKeepsInv(p, Endpoint(mode, s), Datagram(ds[0]));
      ApplyKeepsOrder(p, Endpoint(mode, s), Datagram(ds[0]));
      RunKeeps(p, mode, Push(p, mode, s, ds[0]).state, ds[1..]);
    }
  }

  lemma ReceiveRemembers(s: State, a: Admitted, accepted: set<uint32>) returns (now: set<uint32>)
    requires Filter.Remembers(s.replay, accepted)
    ensures Filter.Remembers(Receive(s, a).state.replay, now)
  {
    Filter.StepRefines(s.replay, accepted, a.header.sequence);
    now := if Filter.Fresh(accepted, a.header.sequence) then accepted + {a.header.sequence} else accepted;
    hide Filter.Step, Filter.Remembers, Filter.Fresh, Entry, Complete, FrameOf, Newer, Trimmed, Stale;
  }

  /** After every run of calls, too, the replay filter stands for the set of numbers accepted since it was cleared. */
  lemma {:induction false} RemembersAlways(p: Primitives, e: Endpoint, ops: seq<Op>, accepted: set<uint32>)
    returns (now: set<uint32>)
    requires Filter.Remembers(e.state.replay, accepted)
    ensures Filter.Remembers(ApplyAll(p, e, ops).end.state.replay, now)
    decreases |ops|
  {
    hide Filter.Remembers, Admit, Receive;
    now := accepted;
    if ops != [] {
      match ops[0] {
        case Datagram(d) =>
          if Admit(p, e.mode, d).Some? { now := ReceiveRemembers(e.state, Admit(p, e.mode, d).value, accepted); }
        case Expect(_) =>
        case Arm(_) => now := {}; NewRemembers();
        case Restart => now := {}; NewRemembers();
      }
      now := RemembersAlways(p, Apply(p, e, ops[0]).0, ops[1..], now);
    }
  }

  lemma NewRemembers()
    ensures Filter.Remembers(Filter.INITIAL, {})
  {
  }

  /** Every state that any calls on any bytes lead to is ordered, with a replay filter that stands for a set. */
  lemma OrderedFromFresh(p: Primitives, ops: seq<Op>) returns (accepted: set<uint32>)
    ensures Ordered(ApplyAll(p, FRESH, ops).end.state)
    ensures Filter.Remembers(ApplyAll(p, FRESH, ops).end.state.replay, accepted)
  {
    hide Filter.Remembers;
    OrderedAlways(p, FRESH, ops);
    NewRemembers();
    accepted := RemembersAlways(p, FRESH, ops, {});
  }

  lemma PushKeepsOrder(p: Primitives, mode: Arming, s: State, d: seq<byte>)
    requires Ordered(s) && AdmittedIdsNumbered(p, mode, d)
    ensures Ordered(Push(p, mode, s, d).state) && Advances(s, Push(p, mode, s, d))
  {
    hide Receive, Admit, Ordered;
    var a := Admit(p, mode, d);
    if a.Some? { ReceiveKeepsOrder(s, a.value); }
  }

  ghost predicate StrictlyIncreasing(frames: seq<VideoFrame>) {
    forall i, j :: 0 <= i < j < |frames| ==> frames[i].frameId < frames[j].frameId
  }

  lemma NoneIncrease()
    ensures StrictlyIncreasing([])
  {
  }

  lemma IncreasingCons(f: VideoFrame, rest: seq<VideoFrame>)
    requires StrictlyIncreasing(rest) && forall i :: 0 <= i < |rest| ==> rest[i].frameId > f.frameId
    ensures StrictlyIncreasing([f] + rest)
  {
  }

  /** Over any run of pushes, frames come out in strictly increasing id order: each at most once. */
  lemma {:induction false} FramesIncrease(p: Primitives, mode: Arming, s: State, ds: seq<seq<byte>>)
    requires Ordered(s) && forall i :: 0 <= i < |ds| ==> AdmittedIdsNumbered(p, mode, ds[i])
    ensures var r := Run(p, mode, s, ds);
      && Ordered(r.state)
      && StrictlyIncreasing(r.frames)
      && (!s.waiting && Numbered(s.lastEmitted) ==>
            forall i :: 0 <= i < |r.frames| ==> r.frames[i].frameId > s.lastEmitted)
    decreases |ds|
  {
    hide Push, Ordered, AdmittedIdsNumbered, StrictlyIncreasing;
    if ds == [] {
      NoneIncrease();
    } else {
      PushKeepsOrder(p, mode, s, ds[0]);
      var o := Push(p, mode, s, ds[0]);
      FramesIncrease(p, mode, o.state, ds[1..]);
      var rest := Run(p, mode, o.state, ds[1..]);
      var r := Run(p, mode, s, ds);
      if o.effects.frame.None? {
        assert r.frames == rest.frames;
      } else {
        assert r.frames == [o.effects.frame.value] + rest.frames;
        IncreasingCons(o.effects.frame.value, rest.frames);
      }
    }
  }

  /**
    Beyond the ordered range: a fresh one-fragment packet of an older frame is emitted, after newer frames, exactly
    when it is 2^31 - 1 or more ids behind the last one.
  */
  lemma OlderFrameEmittedIff(s: State, a: Admitted)
    requires !s.waiting && 0 < a.header.frameId <= s.lastEmitted && a.header.frameId !in s.pending
    requires a.header.fragmentCount == 1
    requires Filter.Step(s.replay, a.header.sequence).isFresh
    requires s.sessionLocked ==> s.expectedSession == a.header.sessionId
    ensures var frame := Receive(s, a).effects.frame;
      && (frame.Some? <==> s.lastEmitted - a.header.frameId >= 0x7FFF_FFFF)
      && (frame.Some? ==> frame.value.frameId == a.header.frameId < s.lastEmitted)
  {
    hide Filter.Step, Newer, Trimmed, Joined;
  }

  // ---- What a pending entry holds ----

  /**
    An entry is described by the packet that opened it, and holds the first copy of each fragment: a push leaves it as
    it was, adds one fragment under a new index, or opens it.
  */
  lemma EntryAfterPush(p: Primitives, mode: Arming, s: State, d: seq<byte>, id: uint32)
    requires Inv(s) && id != 0 && id in Push(p, mode, s, d).state.pending
    ensures var e := Push(p, mode, s, d).state.pending[id];
      || (id in s.pending && e == s.pending[id])
      || (&& Admit(p, mode, d).Some? && Admit(p, mode, d).value.header.frameId == id
          && var h, payload := Admit(p, mode, d).value.header, Admit(p, mode, d).value.payload;
             if id in s.pending then
               && h.fragmentIndex !in s.pending[id].fragments
               && e == s.pending[id].(fragments := s.pending[id].fragments[h.fragmentIndex := payload],
                                      receivedFragments := e.receivedFragments)
             else
               e == PendingFrame(id, h.timestampUs, h.IsKeyframe(), h.fragmentCount, 1,
                                 map[h.fragmentIndex := payload]))
  {
    hide Admit, Filter.Step, Collect, Entry, Stale, Inv;
    var a := Admit(p, mode, d);
    if a.Some? {
      if a.value.header.frameId == id { EntryIs(s, a.value, id); }
      if id in Collect(s, a.value).state.pending { CollectHolds(s, a.value, id); }
      CollectIgnores(s, Pinned(s.(replay := Filter.Step(s.replay, a.value.header.sequence).state),
                               a.value.header.sessionId), a.value);
    }
  }

  lemma EntryIs(s: State, a: Admitted, id: uint32)
    requires Inv(s) && id != 0 && a.header.frameId == id
    ensures var h, e := a.header, Entry(s.pending, a);
      if id !in s.pending then
        e == PendingFrame(id, h.timestampUs, h.IsKeyframe(), h.fragmentCount, 1, map[h.fragmentIndex := a.payload])
      else if h.fragmentIndex in s.pending[id].fragments then e == s.pending[id]
      else e == s.pending[id].(fragments := s.pending[id].fragments[h.fragmentIndex := a.payload],
                               receivedFragments := e.receivedFragments)
  {
    assert id in s.pending ==> Counted(id, s.pending[id]);
  }

  /** Storing, trimming and erasing touch no other entry. */
  lemma CollectHolds(s: State, a: Admitted, id: uint32)
    requires id in Collect(s, a).state.pending
    ensures id == a.header.frameId ==> Collect(s, a).state.pending[id] == Entry(s.pending, a)
    ensures id != a.header.frameId ==> id in s.pending && Collect(s, a).state.pending[id] == s.pending[id]
  {
    hide Entry, Complete, FrameOf;
  }

  lemma CollectIgnores(s: State, t: State, a: Admitted)
    requires s.pending == t.pending
    ensures Collect(s, a).state.pending == Collect(t, a).state.pending
  {
    hide Entry, Complete, FrameOf, Newer, Trimmed;
  }

  // ---- Starting over ----

  /** Apart from the session id that neither is pinned to. */
  ghost predicate Alike(s: State, t: State) {
    s.(expectedSession := t.expectedSession) == t && (s.sessionLocked ==> s == t)
  }

  lemma PushAlike(p: Primitives, mode: Arming, s: State, t: State, d: seq<byte>)
    requires Alike(s, t)
    ensures var o, u := Push(p, mode, s, d), Push(p, mode, t, d);
      o.effects == u.effects && Alike(o.state, u.state)
  {
    hide Admit, Filter.Step, Collect;
    var a := Admit(p, mode, d);
    if a.Some? && Filter.Step(s.replay, a.value.header.sequence).isFresh {
      var replay := Filter.Step(s.replay, a.value.header.sequence).state;
      assert Pinned(s.(replay := replay), a.value.header.sessionId)
          == Pinned(t.(replay := replay), a.value.header.sessionId);
    }
  }

  lemma ApplyAlike(p: Primitives, mode: Arming, s: State, t: State, op: Op)
    requires Alike(s, t)
    ensures var (x, effects) := Apply(p, Endpoint(mode, s), op);
            var (y, effects') := Apply(p, Endpoint(mode, t), op);
      effects == effects' && x.mode == y.mode && Alike(x.state, y.state)
  {
    hide Push;
    if op.Datagram? { PushAlike(p, mode, s, t, op.bytes); }
  }

  lemma {:induction false} RunsAlike(p: Primitives, mode: Arming, s: State, t: State, ops: seq<Op>)
    requires Alike(s, t)
    ensures var x, y := ApplyAll(p, Endpoint(mode, s), ops), ApplyAll(p, Endpoint(mode, t), ops);
      x.frames == y.frames && x.end.mode == y.end.mode && Alike(x.end.state, y.end.state)
    decreases |ops|
  {
    hide Apply, Alike;
    if ops != [] {
      ApplyAlike(p, mode, s, t, ops[0]);
      var x, y := Apply(p, Endpoint(mode, s), ops[0]).0, Apply(p, Endpoint(mode, t), ops[0]).0;
      RunsAlike(p, x.mode, x.state, y.state, ops[1..]);
    }
  }

  /**
    A reset receiver is a new one: whatever it went through before, every run of calls after a reset emits the frames
    that it would emit had the receiver been constructed with that key.
  */
  lemma RestartIsAnew(p: Primitives, e: Endpoint, ops: seq<Op>)
    ensures ApplyAll(p, e, [Restart] + ops).frames
         == ApplyAll(p, Endpoint(e.mode, Reassembler.INITIAL), ops).frames
  {
    hide Apply, ApplyAll;
    var reset := Apply(p, e, Restart).0.state;
    assert Alike(reset, Reassembler.INITIAL) by { ResetIsAlike(p, e); }
    RunsAlike(p, e.mode, reset, Reassembler.INITIAL, ops);
    AfterRestart(p, e, ops);
  }

  lemma ResetIsAlike(p: Primitives, e: Endpoint)
    ensures Alike(Apply(p, e, Restart).0.state, Reassembler.INITIAL)
  {
  }

  lemma AfterRestart(p: Primitives, e: Endpoint, ops: seq<Op>)
    ensures ApplyAll(p, e, [Restart] + ops).frames == ApplyAll(p, Apply(p, e, Restart).0, ops).frames
    ensures Apply(p, e, Restart).0.mode == e.mode
  {
    assert ([Restart] + ops)[1..] == ops;
  }

  /** For datagrams alone, the missing-keyframe callbacks are those of a new receiver, too. */
  lemma {:induction false} DatagramsAlike(p: Primitives, mode: Arming, s: State, t: State, ds: seq<seq<byte>>)
    requires Alike(s, t)
    ensures var x, y := Run(p, mode, s, ds), Run(p, mode, t, ds);
      x.frames == y.frames && x.missing == y.missing && Alike(x.state, y.state)
    decreases |ds|
  {
    hide Push, Alike;
    if ds != [] {
      PushAlike(p, mode, s, t, ds[0]);
      DatagramsAlike(p, mode, Push(p, mode, s, ds[0]).state, Push(p, mode, t, ds[0]).state, ds[1..]);
    }
  }

  lemma RestartedRunIsAnew(p: Primitives, mode: Arming, s: State, ds: seq<seq<byte>>)
    ensures var x, y := Run(p, mode, Restarted(s), ds), Run(p, mode, Reassembler.INITIAL, ds);
      x.frames == y.frames && x.missing == y.missing
  {
    DatagramsAlike(p, mode, Restarted(s), Reassembler.INITIAL, ds);
  }

  /**
    A new key also opens the receiver to any session and any number, but not to what it emitted before: the first
    packet it admits is refused only for want of a keyframe or as stale, and pins its session otherwise.
  */
  lemma RearmedTakesAny(p: Primitives, mode: Arming, s: State, d: seq<byte>)
    requires Admit(p, mode, d).Some?
    ensures var h := Admit(p, mode, d).value.header;
            var o := Push(p, mode, Rearmed(s), d);
      && (o.effects.accepted <==> if s.waiting then h.IsKeyframe() else !Stale(s.lastEmitted, h.frameId))
      && o.state.sessionLocked && o.state.expectedSession == h.sessionId
      && Rearmed(s).pending == s.pending && Rearmed(s).lastEmitted == s.lastEmitted && Rearmed(s).waiting == s.waiting
  {
    hide Admit, Entry, Trimmed, Newer, FrameOf, Complete, Stale;
    assert Filter.Step(Filter.INITIAL, Admit(p, mode, d).value.header.sequence).isFresh;
  }
}
