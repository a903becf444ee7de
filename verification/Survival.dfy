/**
  Survival: on any run of genuine datagrams - packets lost, doubled, late, in any order - and from any state that
  the receiver can be in, exactly when a frame comes out, and with what data.
*/
module Survival {
  import opened Wrappers
  import opened Bytes
  import opened Crypto
  import Filter = ReplayFilter
  import opened Packetizer
  import opened Reassembler
  import opened ReassemblerInvariants
  import opened Integrity

  // ---- The stream and the receiver ----

  /** Whatever is admitted of this datagram is a fragment of a frame of the stream. */
  ghost predicate FromStream(p: Primitives, sessionId: uint32, tx: Arming, rx: Arming, frames: seq<VideoFrame>,
                             d: seq<byte>)
  {
    Admit(p, rx, d).Some? ==>
      && Admit(p, rx, d).value.header.sessionId == sessionId
      && FragmentOfSome(tx, frames, Admit(p, rx, d).value)
  }

  ghost predicate AllFromStream(p: Primitives, sessionId: uint32, tx: Arming, rx: Arming, frames: seq<VideoFrame>,
                                ds: seq<seq<byte>>)
  {
    forall i :: 0 <= i < |ds| ==> FromStream(p, sessionId, tx, rx, frames, ds[i])
  }

  lemma FragmentFromStream(p: Primitives, sessionId: uint32, tx: Arming, rx: Arming, frames: seq<VideoFrame>, k: nat,
                           d: seq<byte>)
    requires Admit(p, rx, d).Some? && Admit(p, rx, d).value.header.sessionId == sessionId
    requires k < |frames| && IsFragment(tx, frames[k], Admit(p, rx, d).value)
    ensures FromStream(p, sessionId, tx, rx, frames, d)
  {
    hide Admit, FragmentOfSome;
    OneOfStream(tx, frames, k, Admit(p, rx, d).value);
  }

  lemma GenuineIsFromStream(p: Primitives, sessionId: uint32, tx: Arming, rx: Arming, frames: seq<VideoFrame>,
                            sequence: uint32, ds: seq<seq<byte>>)
    requires p.Laws() && Compatible(tx, rx)
    requires OnlyGenuineAdmitted(p, rx, Sent(p, sessionId, tx, frames, sequence), ds)
    ensures AllFromStream(p, sessionId, tx, rx, frames, ds)
  {
    hide Admit, FragmentOfSome, Sent, OnlyGenuineAdmitted;
    forall i | 0 <= i < |ds| ensures FromStream(p, sessionId, tx, rx, frames, ds[i]) {
      if Admit(p, rx, ds[i]).Some? { GenuineIsFragment(p, sessionId, tx, rx, frames, sequence, ds, i); }
    }
  }

  /** What every run on genuine datagrams keeps. The first two hold in every state that any calls can lead to. */
  ghost predicate Receiving(sessionId: uint32, s: State, accepted: set<uint32>) {
    && Ordered(s) && Inv(s)
    && (s.sessionLocked ==> s.expectedSession == sessionId)
    && Filter.Remembers(s.replay, accepted)
  }

  /** The numbers accepted after this datagram. */
  ghost function AcceptedWith(p: Primitives, rx: Arming, accepted: set<uint32>, d: seq<byte>): set<uint32> {
    var a := Admit(p, rx, d);
    if a.Some? && Filter.Fresh(accepted, a.value.header.sequence) then accepted + {a.value.header.sequence}
    else accepted
  }

  /** The state in which a fresh packet meets the keyframe gate and the stale test. */
  function Noted(s: State, a: Admitted): State {
    Pinned(s.(replay := Filter.Step(s.replay, a.header.sequence).state), a.header.sessionId)
  }

  lemma ReceiveCases(s: State, a: Admitted, accepted: set<uint32>)
    requires Filter.Remembers(s.replay, accepted) && (s.sessionLocked ==> s.expectedSession == a.header.sessionId)
    ensures !Filter.Fresh(accepted, a.header.sequence) ==> Receive(s, a) == Outcome(s, REFUSED)
    ensures Filter.Fresh(accepted, a.header.sequence) ==>
      Receive(s, a) ==
        if s.waiting && !a.header.IsKeyframe() then
          Outcome(Noted(s, a), Effects(false, None, Some(a.header.frameId)))
        else if !s.waiting && Stale(s.lastEmitted, a.header.frameId) then Outcome(Noted(s, a), REFUSED)
        else Collect(Noted(s, a), a)
    ensures Noted(s, a)
         == s.(replay := Noted(s, a).replay, sessionLocked := true, expectedSession := a.header.sessionId)
  {
    Filter.StepRefines(s.replay, accepted, a.header.sequence);
    hide Collect, Filter.Step, Filter.Remembers, Filter.Fresh;
  }

  lemma ReplayAfter(s: State, a: Admitted, accepted: set<uint32>, sessionId: uint32)
    requires Filter.Remembers(s.replay, accepted)
    requires a.header.sessionId == sessionId && (s.sessionLocked ==> s.expectedSession == sessionId)
    ensures var t := Receive(s, a).state;
      && Filter.Remembers(t.replay, if Filter.Fresh(accepted, a.header.sequence)
                                    then accepted + {a.header.sequence} else accepted)
      && (t.sessionLocked ==> t.expectedSession == sessionId)
  {
    Filter.StepRefines(s.replay, accepted, a.header.sequence);
    hide Filter.Step, Filter.Remembers, Filter.Fresh, Entry, FrameOf, Newer, Trimmed, Complete;
  }

  lemma PushReceiving(p: Primitives, sessionId: uint32, tx: Arming, rx: Arming, frames: seq<VideoFrame>, s: State,
                      accepted: set<uint32>, d: seq<byte>)
    requires SendableStream(tx, frames) && Receiving(sessionId, s, accepted)
    requires FromStream(p, sessionId, tx, rx, frames, d)
    ensures Receiving(sessionId, Push(p, rx, s, d).state, AcceptedWith(p, rx, accepted, d))
    ensures AdmittedIdsNumbered(p, rx, d) && Advances(s, Push(p, rx, s, d))
  {
    hide Admit, Receive, SendableStream, FragmentOfSome, Ordered, Inv, Filter.Remembers, Filter.Fresh, Advances;
    var a := Admit(p, rx, d);
    if a.Some? {
      FragmentNumbered(tx, frames, a.value);
      ReceiveKeepsInv(s, a.value);
      ReplayAfter(s, a.value, accepted, sessionId);
    }
    PushKeepsOrder(p, rx, s, d);
  }

  /** Neither the keyframe gate nor the stale test stops a packet of f. */
  predicate Open(f: VideoFrame, s: State) {
    if s.waiting then f.isKeyframe else !Stale(s.lastEmitted, f.frameId)
  }

  // ---- What the receiver holds of one frame ----

  /** This datagram's fragment of f is collected. */
  ghost predicate Takes(p: Primitives, rx: Arming, f: VideoFrame, s: State, accepted: set<uint32>, d: seq<byte>) {
    && Admit(p, rx, d).Some? && Admit(p, rx, d).value.header.frameId == f.frameId
    && Filter.Fresh(accepted, Admit(p, rx, d).value.header.sequence) && Open(f, s)
  }

  /** The index that it adds, if any. */
  ghost function Gains(p: Primitives, rx: Arming, f: VideoFrame, s: State, accepted: set<uint32>, d: seq<byte>)
    : set<uint16>
  {
    if Takes(p, rx, f, s, accepted, d) then {Admit(p, rx, d).value.header.fragmentIndex} else {}
  }

  lemma ReceiveMine(tx: Arming, f: VideoFrame, s: State, a: Admitted, accepted: set<uint32>)
    requires Filter.Remembers(s.replay, accepted) && (s.sessionLocked ==> s.expectedSession == a.header.sessionId)
    requires IsFragment(tx, f, a)
    ensures if Filter.Fresh(accepted, a.header.sequence) && Open(f, s) then Receive(s, a) == Collect(Noted(s, a), a)
            else Receive(s, a).effects.frame == None && Receive(s, a).state.pending == s.pending
  {
    hide Collect, Filter.Remembers, Filter.Fresh, Stale;
    ReceiveCases(s, a, accepted);
  }

  lemma NotedKeeps(s: State, a: Admitted)
    ensures var t := Noted(s, a);
      t.pending == s.pending && t.waiting == s.waiting && t.lastEmitted == s.lastEmitted
  {
    hide Filter.Step;
  }

  /** Sixteen newer frames are pending, so there is no room for this one. */
  ghost predicate Crowded(f: VideoFrame, s: State) {
    |Newer(s.pending, f.frameId)| >= MAX_PENDING
  }

  /** Eviction takes a frame only when sixteen newer ones are pending. */
  lemma TrimKeeps(frames: PendingFrames, id: uint32)
    requires id in frames && |Newer(Trimmed(frames), id)| < MAX_PENDING
    ensures id in Trimmed(frames) && Trimmed(frames)[id] == frames[id]
  {
    if |frames| > MAX_PENDING && Smallest(frames.Keys) == id {
      var rest := frames - {id};
      assert rest.Keys == frames.Keys - {id};
      assert |rest.Keys| == |frames.Keys| - 1;
      NewerIsAll(rest, id);
    }
  }

  lemma NewerIsAll(frames: PendingFrames, id: uint32)
    requires forall j :: j in frames ==> j > id
    ensures Newer(frames, id) == frames
  {
  }

  /** A fragment of another frame does not change this one's entry. */
  lemma OtherUnchanged(s: State, a: Admitted, id: uint32)
    requires a.header.frameId != id
    ensures var t := Collect(s, a).state;
      id in t.pending ==> id in s.pending && t.pending[id] == s.pending[id]
  {
    hide Entry, Complete, Joined, Collect;
    CollectKeepsEntries(s, a);
  }

  /** Nor does it remove it, unless a newer frame comes out or the map is crowded. */
  lemma OtherKept(s: State, a: Admitted, f: VideoFrame)
    requires a.header.frameId != f.frameId && Entry(s.pending, a).frameId == a.header.frameId
    requires f.frameId in s.pending
    requires var o := Collect(s, a);
      !Crowded(f, o.state) && (o.effects.frame.Some? ==> o.effects.frame.value.frameId < f.frameId)
    ensures f.frameId in Collect(s, a).state.pending
  {
    hide Entry, Complete, Joined, Trimmed;
    var e := Entry(s.pending, a);
    if !Complete(e) { TrimKeeps(s.pending[a.header.frameId := e], f.frameId); }
  }

  /** A fragment of this frame completes it or is kept. */
  lemma MineCollected(tx: Arming, f: VideoFrame, held: map<uint16, seq<byte>>, s: State, a: Admitted)
    requires Sendable(tx, f) && IsFragment(tx, f, a) && Growing(tx, f, held, s.pending)
    ensures var o := Collect(s, a);
            var keys := Held(s.pending, f.frameId).Keys + {a.header.fragmentIndex};
      && |keys| <= Count(tx, f)
      && if |keys| == Count(tx, f) then o.effects.frame == Some(Resulting(tx, f, held))
      else
        && o.effects.frame == None
        && (|Newer(o.state.pending, f.frameId)| < MAX_PENDING ==>
              && f.frameId in o.state.pending
              && Growing(tx, f, held, o.state.pending) && Held(o.state.pending, f.frameId).Keys == keys)
  {
    hide Sendable, Shaped, IsFragment, Entry, Joined, Complete, Trimmed, FrameOf, Resulting, Count;
    EntryShaped(tx, f, held, s.pending, a);
    MineById(tx, f, a);
    var e := Entry(s.pending, a);
    assert |e.fragments| == |e.fragments.Keys|;
    if !Complete(e) && |Newer(Collect(s, a).state.pending, f.frameId)| < MAX_PENDING {
      TrimKeeps(s.pending[f.frameId := e], f.frameId);
    }
  }

  lemma MineGrows(tx: Arming, f: VideoFrame, held: map<uint16, seq<byte>>, s: State, a: Admitted)
    requires Sendable(tx, f) && IsFragment(tx, f, a) && Growing(tx, f, held, s.pending)
    requires var o := Collect(s, a);
      && (o.effects.frame.Some? ==> o.effects.frame.value.frameId < f.frameId)
      && (Count(tx, f) > 1 ==> !Crowded(f, o.state))
    ensures var t := Collect(s, a).state;
      && Growing(tx, f, held, t.pending)
      && Held(t.pending, f.frameId).Keys == Held(s.pending, f.frameId).Keys + {a.header.fragmentIndex}
  {
    hide Sendable, IsFragment, Collect, Growing, Held, Count, Newer;
    MineCollected(tx, f, held, s, a);
    var keys := Held(s.pending, f.frameId).Keys + {a.header.fragmentIndex};
    assert |keys| >= 1 by { assert a.header.fragmentIndex in keys; }
  }

  lemma OtherGrows(tx: Arming, f: VideoFrame, held: map<uint16, seq<byte>>, s: State, a: Admitted)
    requires Growing(tx, f, held, s.pending) && a.header.frameId != f.frameId
    requires Entry(s.pending, a).frameId == a.header.frameId
    requires var o := Collect(s, a);
      && (o.effects.frame.Some? ==> o.effects.frame.value.frameId < f.frameId)
      && (Count(tx, f) > 1 ==> !Crowded(f, o.state))
    ensures var t := Collect(s, a).state;
      Growing(tx, f, held, t.pending) && Held(t.pending, f.frameId).Keys == Held(s.pending, f.frameId).Keys
  {
    hide Collect, Count, Crowded, Entry;
    OtherUnchanged(s, a, f.frameId);
    if f.frameId in s.pending {
      if Count(tx, f) > 1 {
        OtherKept(s, a, f);
      } else {
        assert |s.pending[f.frameId].fragments.Keys| == 0;
        assert held == map[];
      }
    }
  }

  lemma MineById(tx: Arming, f: VideoFrame, a: Admitted)
    ensures IsFragment(tx, f, a) ==> a.header.frameId == f.frameId && a.header.fragmentIndex < Count(tx, f)
  {
  }

  lemma FragmentIsMine(tx: Arming, frames: seq<VideoFrame>, k: nat, a: Admitted)
    requires SendableStream(tx, frames) && FragmentOfSome(tx, frames, a) && k < |frames|
    requires a.header.frameId == frames[k].frameId
    ensures IsFragment(tx, frames[k], a)
  {
    var j :| 0 <= j < |frames| && IsFragment(tx, frames[j], a);
    SameId(frames, j, k);
  }

  /** The entry of f grows by what is taken and by nothing else. */
  lemma GrowsStep(p: Primitives, sessionId: uint32, tx: Arming, rx: Arming, frames: seq<VideoFrame>, k: nat,
                  held: map<uint16, seq<byte>>, s: State, accepted: set<uint32>, d: seq<byte>)
    requires SendableStream(tx, frames) && k < |frames| && Receiving(sessionId, s, accepted)
    requires FromStream(p, sessionId, tx, rx, frames, d) && Growing(tx, frames[k], held, s.pending)
    requires var o := Push(p, rx, s, d);
      && (o.effects.frame.Some? ==> o.effects.frame.value.frameId < frames[k].frameId)
      && (Count(tx, frames[k]) > 1 ==> !Crowded(frames[k], o.state))
    ensures var t := Push(p, rx, s, d).state;
      && Growing(tx, frames[k], held, t.pending)
      && Held(t.pending, frames[k].frameId).Keys
         == Held(s.pending, frames[k].frameId).Keys + Gains(p, rx, frames[k], s, accepted, d)
  {
    hide Admit, SendableStream, IsFragment, Filter.Remembers, Filter.Fresh, Receive, Collect, Count, Growing;
    hide Inv, FragmentOfSome, Open, Ordered, Entry, Crowded;
    var f, a := frames[k], Admit(p, rx, d);
    SendableAt(tx, frames, k);
    if a.Some? {
      NotedKeeps(s, a.value);
      if a.value.header.frameId == f.frameId {
        FragmentIsMine(tx, frames, k, a.value);
        ReceiveMine(tx, f, s, a.value, accepted);
        if Takes(p, rx, f, s, accepted, d) { MineGrows(tx, f, held, Noted(s, a.value), a.value); }
      } else {
        ReceiveCases(s, a.value, accepted);
        EntryIdNumbered(tx, frames, s, a.value);
        if Receive(s, a.value) == Collect(Noted(s, a.value), a.value) {
          OtherGrows(tx, f, held, Noted(s, a.value), a.value);
        }
      }
    }
  }

  lemma SendableAt(tx: Arming, frames: seq<VideoFrame>, k: nat)
    requires SendableStream(tx, frames) && k < |frames|
    ensures Sendable(tx, frames[k]) && Numbered(frames[k].frameId)
  {
  }

  lemma EntryIdNumbered(tx: Arming, frames: seq<VideoFrame>, s: State, a: Admitted)
    requires SendableStream(tx, frames) && FragmentOfSome(tx, frames, a) && Ordered(s)
    ensures Entry(s.pending, a).frameId == a.header.frameId
  {
    hide Entry, SendableStream, FragmentOfSome;
    FragmentNumbered(tx, frames, a);
    EntryId(s.pending, a);
  }

  /** A frame under f's id comes out only when its last fragment is taken, and it is f but for what was held. */
  lemma CompletedStep(p: Primitives, sessionId: uint32, tx: Arming, rx: Arming, frames: seq<VideoFrame>, k: nat,
                      held: map<uint16, seq<byte>>, s: State, accepted: set<uint32>, d: seq<byte>)
    requires SendableStream(tx, frames) && k < |frames| && Receiving(sessionId, s, accepted)
    requires FromStream(p, sessionId, tx, rx, frames, d) && Growing(tx, frames[k], held, s.pending)
    requires var frame := Push(p, rx, s, d).effects.frame; frame.Some? && frame.value.frameId == frames[k].frameId
    ensures Push(p, rx, s, d).effects.frame == Some(Resulting(tx, frames[k], held))
    ensures forall j: uint16 :: j < Count(tx, frames[k]) ==>
      j in Held(s.pending, frames[k].frameId).Keys + Gains(p, rx, frames[k], s, accepted, d)
  {
    hide Admit, SendableStream, IsFragment, Filter.Remembers, Filter.Fresh, Receive, Collect, Count, Growing, Held;
    hide Inv, FragmentOfSome, Open, Ordered, Entry, Complete, FrameOf;
    var f, a := frames[k], Admit(p, rx, d).value;
    SendableAt(tx, frames, k);
    NotedKeeps(s, a);
    ReceiveCases(s, a, accepted);
    EntryIdNumbered(tx, frames, s, a);
    CollectKeepsEntries(Noted(s, a), a);
    EmittedId(Entry(s.pending, a));
    FragmentIsMine(tx, frames, k, a);
    ReceiveMine(tx, f, s, a, accepted);
    MineCollected(tx, f, held, Noted(s, a), a);
    HeldWithin(tx, f, held, s.pending, a);
    var keys := Held(s.pending, f.frameId).Keys + {a.header.fragmentIndex};
    IndicesBelow(keys, Count(tx, f));
  }

  lemma HeldWithin(tx: Arming, f: VideoFrame, held: map<uint16, seq<byte>>, pending: PendingFrames, a: Admitted)
    requires Growing(tx, f, held, pending) && IsFragment(tx, f, a)
    ensures forall i :: i in Held(pending, f.frameId).Keys + {a.header.fragmentIndex} ==> i < Count(tx, f)
  {
  }

  // ---- Arrival ----

  ghost predicate Brings(p: Primitives, rx: Arming, d: seq<byte>, id: uint32, j: uint16) {
    && Admit(p, rx, d).Some?
    && Admit(p, rx, d).value.header.frameId == id && Admit(p, rx, d).value.header.fragmentIndex == j
  }

  /** Datagram i brings fragment j, fresh - nothing before it had its number or one 64 or more above - and passes. */
  ghost predicate ArrivesAt(p: Primitives, rx: Arming, f: VideoFrame, s: State, accepted: set<uint32>,
                            ds: seq<seq<byte>>, j: uint16, i: nat)
  {
    && i < |ds| && Brings(p, rx, ds[i], f.frameId, j)
    && Filter.Fresh(accepted, Number(p, rx, ds[i]))
    && (forall h :: 0 <= h < i ==> Earlier(p, rx, Number(p, rx, ds[i]), ds[h]))
    && Open(f, Run(p, rx, s, ds[..i]).state)
  }

  ghost function Number(p: Primitives, rx: Arming, d: seq<byte>): uint32
    requires Admit(p, rx, d).Some?
  {
    Admit(p, rx, d).value.header.sequence
  }

  ghost predicate Earlier(p: Primitives, rx: Arming, n: uint32, d: seq<byte>) {
    Admit(p, rx, d).Some? ==>
      var m := Admit(p, rx, d).value.header.sequence; m != n && m < n + Filter.WINDOW
  }

  ghost predicate Arrives(p: Primitives, rx: Arming, f: VideoFrame, s: State, accepted: set<uint32>,
                          ds: seq<seq<byte>>, j: uint16)
  {
    exists i :: ArrivesAt(p, rx, f, s, accepted, ds, j, i)
  }

  /** Every fragment is held or arrives in time. */
  ghost predicate Due(p: Primitives, tx: Arming, rx: Arming, f: VideoFrame, s: State, accepted: set<uint32>,
                      ds: seq<seq<byte>>)
  {
    forall j: uint16 :: j < Count(tx, f) ==>
      j in Held(s.pending, f.frameId) || Arrives(p, rx, f, s, accepted, ds, j)
  }

  /** A number stays fresh exactly if the packet that came before it does not spoil it, be it accepted or not. */
  lemma FreshStep(p: Primitives, rx: Arming, accepted: set<uint32>, d: seq<byte>, n: uint32)
    ensures Filter.Fresh(AcceptedWith(p, rx, accepted, d), n) <==> Filter.Fresh(accepted, n) && Earlier(p, rx, n, d)
  {
    hide Admit;
    var a := Admit(p, rx, d);
    if a.Some? {
      var m := a.value.header.sequence;
      if !Filter.Fresh(accepted, m) && m !in accepted {
        var x :| x in accepted && x >= m + Filter.WINDOW;
      }
    }
  }

  lemma RunPrefix(p: Primitives, rx: Arming, s: State, ds: seq<seq<byte>>, i: nat)
    requires 0 < i <= |ds|
    ensures Run(p, rx, s, ds[..i]).state == Run(p, rx, Push(p, rx, s, ds[0]).state, ds[1..][..i - 1]).state
  {
    hide Push;
    assert ds[..i][1..] == ds[1..][..i - 1];
  }

  lemma RunNone(p: Primitives, rx: Arming, s: State, ds: seq<seq<byte>>)
    ensures Run(p, rx, s, ds[..0]).state == s
  {
  }

  lemma ArrivesLater(p: Primitives, rx: Arming, f: VideoFrame, s: State, accepted: set<uint32>, ds: seq<seq<byte>>,
                     j: uint16, i: nat)
    requires 0 < i <= |ds|
    ensures ArrivesAt(p, rx, f, s, accepted, ds, j, i) <==>
      ArrivesAt(p, rx, f, Push(p, rx, s, ds[0]).state, AcceptedWith(p, rx, accepted, ds[0]), ds[1..], j, i - 1)
  {
    hide Admit, Push, Run, Open, AcceptedWith, Filter.Fresh, Earlier, Brings;
    if i < |ds| && Brings(p, rx, ds[i], f.frameId, j) {
      assert ds[1..][i - 1] == ds[i];
      BringsAdmitted(p, rx, ds[i], f.frameId, j);
      var n := Number(p, rx, ds[i]);
      FreshStep(p, rx, accepted, ds[0], n);
      RunPrefix(p, rx, s, ds, i);
      EarlierShifted(p, rx, n, ds, i);
    }
  }

  lemma BringsAdmitted(p: Primitives, rx: Arming, d: seq<byte>, id: uint32, j: uint16)
    requires Brings(p, rx, d, id, j)
    ensures Admit(p, rx, d).Some?
  {
  }

  lemma EarlierShifted(p: Primitives, rx: Arming, n: uint32, ds: seq<seq<byte>>, i: nat)
    requires 0 < i <= |ds|
    ensures (forall h :: 0 <= h < i ==> Earlier(p, rx, n, ds[h])) <==>
      Earlier(p, rx, n, ds[0]) && forall h :: 0 <= h < i - 1 ==> Earlier(p, rx, n, ds[1..][h])
  {
    hide Earlier;
    if Earlier(p, rx, n, ds[0]) && forall h :: 0 <= h < i - 1 ==> Earlier(p, rx, n, ds[1..][h]) {
      forall h | 0 <= h < i ensures Earlier(p, rx, n, ds[h]) {
        if h > 0 { assert ds[h] == ds[1..][h - 1]; }
      }
    }
  }

  /** The first datagram brings a fragment, or it is still to come. */
  lemma ArrivesStep(p: Primitives, rx: Arming, f: VideoFrame, s: State, accepted: set<uint32>, ds: seq<seq<byte>>,
                    j: uint16)
    requires ds != []
    ensures Arrives(p, rx, f, s, accepted, ds, j) <==>
      || j in Gains(p, rx, f, s, accepted, ds[0])
      || Arrives(p, rx, f, Push(p, rx, s, ds[0]).state, AcceptedWith(p, rx, accepted, ds[0]), ds[1..], j)
  {
    hide Admit, Push, Run, Open, AcceptedWith, Filter.Fresh;
    var t, now := Push(p, rx, s, ds[0]).state, AcceptedWith(p, rx, accepted, ds[0]);
    RunNone(p, rx, s, ds);
    ArrivesFirst(p, rx, f, s, accepted, ds, j);
    hide ArrivesAt, Gains;
    if i: nat :| ArrivesAt(p, rx, f, s, accepted, ds, j, i) {
      if i > 0 { ArrivesLater(p, rx, f, s, accepted, ds, j, i); }
    }
    if i: nat :| ArrivesAt(p, rx, f, t, now, ds[1..], j, i) {
      ArrivesLater(p, rx, f, s, accepted, ds, j, i + 1);
    }
  }

  lemma ArrivesFirst(p: Primitives, rx: Arming, f: VideoFrame, s: State, accepted: set<uint32>, ds: seq<seq<byte>>,
                     j: uint16)
    requires ds != []
    ensures ArrivesAt(p, rx, f, s, accepted, ds, j, 0) <==> j in Gains(p, rx, f, s, accepted, ds[0])
  {
    hide Admit, Push, Run, Open, Filter.Fresh;
    RunNone(p, rx, s, ds);
  }

  // ---- Crowded out ----

  lemma NewerSubset(a: PendingFrames, b: PendingFrames, id: uint32)
    requires forall j :: j in a && j > id ==> j in b
    ensures |Newer(a, id)| <= |Newer(b, id)|
  {
    SubsetNotLarger(Newer(a, id).Keys, Newer(b, id).Keys);
  }

  lemma {:induction false} SubsetNotLarger<T>(a: set<T>, b: set<T>)
    requires a <= b
    ensures |a| <= |b|
  {
    if a != b { SubsetSmaller(a, b); }
  }

  /** At the cap, all that is pending is newer. */
  lemma CrowdedByAll(f: VideoFrame, s: State)
    requires Crowded(f, s) && |s.pending| <= MAX_PENDING
    ensures |s.pending| == MAX_PENDING && forall j :: j in s.pending ==> j > f.frameId
  {
    var newer := Newer(s.pending, f.frameId).Keys;
    if newer != s.pending.Keys { SubsetSmaller(newer, s.pending.Keys); }
    assert s.pending.Keys == newer;
  }

  /** Among seventeen of which at most one is not newer, sixteen newer ones are kept. */
  lemma TrimmedCrowd(frames: PendingFrames, f: VideoFrame, id: uint32)
    requires id in frames && |frames - {id}| >= MAX_PENDING
    requires forall j :: j in frames && j != id ==> j > f.frameId
    ensures |Newer(Trimmed(frames), f.frameId)| >= MAX_PENDING
  {
    var rest := frames - {id};
    assert rest.Keys == frames.Keys - {id} && |rest.Keys| == |frames.Keys| - 1;
    var oldest := Smallest(frames.Keys);
    var kept := frames - {oldest};
    assert kept.Keys == frames.Keys - {oldest} && |kept.Keys| == |frames.Keys| - 1;
    assert forall j :: j in kept ==> j > f.frameId;
    NewerIsAll(kept, f.frameId);
  }

  lemma CollectCrowded(s: State, a: Admitted, f: VideoFrame)
    requires Crowded(f, s) && |s.pending| <= MAX_PENDING
    requires Entry(s.pending, a).frameId == a.header.frameId
    requires a.header.frameId == f.frameId ==> !Complete(Entry(s.pending, a))
    ensures var o := Collect(s, a);
      && (o.effects.frame.Some? ==> o.effects.frame.value.frameId != f.frameId)
      && (Crowded(f, o.state) || (o.effects.frame.Some? && o.effects.frame.value.frameId > f.frameId))
  {
    hide Entry, Complete, Joined, Trimmed;
    CrowdedByAll(f, s);
    var id := a.header.frameId;
    var e := Entry(s.pending, a);
    var stored := s.pending[id := e];
    var o := Collect(s, a);
    if Complete(e) {
      if id < f.frameId { NewerSubset(s.pending, o.state.pending, f.frameId); }
    } else if id in s.pending {
      assert stored.Keys == s.pending.Keys;
      assert |stored| == |stored.Keys| == |s.pending.Keys|;
      FullStays(stored);
      NewerSubset(s.pending, stored, f.frameId);
    } else {
      assert stored - {id} == s.pending;
      TrimmedCrowd(stored, f, id);
    }
  }

  lemma FullStays(frames: PendingFrames)
    requires |frames| <= MAX_PENDING
    ensures Trimmed(frames) == frames
  {
  }

  /** A lone fragment of a frame that needs more does not complete it. */
  lemma FirstOfMany(tx: Arming, f: VideoFrame, s: State, a: Admitted)
    requires Sendable(tx, f) && IsFragment(tx, f, a) && f.frameId !in s.pending && Count(tx, f) > 1
    ensures !Complete(Entry(s.pending, a))
  {
    hide Sendable, Entry, Count, IsFragment, Shaped, Complete;
    EntryShaped(tx, f, map[], s.pending, a);
    assert |Entry(s.pending, a).fragments.Keys| == 1;
  }

  lemma CrowdedStep(p: Primitives, sessionId: uint32, tx: Arming, rx: Arming, frames: seq<VideoFrame>, k: nat,
                    s: State, accepted: set<uint32>, d: seq<byte>)
    requires SendableStream(tx, frames) && k < |frames| && Receiving(sessionId, s, accepted)
    requires FromStream(p, sessionId, tx, rx, frames, d) && Crowded(frames[k], s) && Count(tx, frames[k]) > 1
    ensures var o := Push(p, rx, s, d);
      && (o.effects.frame.Some? ==> o.effects.frame.value.frameId != frames[k].frameId)
      && (Crowded(frames[k], o.state)
          || (o.effects.frame.Some? && o.effects.frame.value.frameId > frames[k].frameId))
  {
    hide Admit, SendableStream, IsFragment, Filter.Remembers, Filter.Fresh, Receive, Collect, Count, Ordered;
    hide FragmentOfSome, Entry, Complete, Counted, Newer, Stale;
    var a := Admit(p, rx, d);
    if a.Some? {
      ReceiveCases(s, a.value, accepted);
      EntryIdNumbered(tx, frames, s, a.value);
      CrowdedByAll(frames[k], s);
      NotedKeeps(s, a.value);
      if a.value.header.frameId == frames[k].frameId {
        FragmentIsMine(tx, frames, k, a.value);
        SendableAt(tx, frames, k);
        FirstOfMany(tx, frames[k], s, a.value);
      }
      hide Noted;
      CollectCrowded(Noted(s, a.value), a.value, frames[k]);
    }
  }

  /** Some emitted frame has this id. */
  ghost predicate Emits(frames: seq<VideoFrame>, id: uint32) {
    exists i :: 0 <= i < |frames| && frames[i].frameId == id
  }

  /** Nothing that is not newer than the last emitted frame is emitted any more. */
  lemma NotAfterNewer(p: Primitives, sessionId: uint32, tx: Arming, rx: Arming, frames: seq<VideoFrame>, id: uint32,
                      s: State, ds: seq<seq<byte>>)
    requires SendableStream(tx, frames) && AllFromStream(p, sessionId, tx, rx, frames, ds) && Ordered(s)
    requires !s.waiting && Numbered(s.lastEmitted) && s.lastEmitted >= id
    ensures !Emits(Run(p, rx, s, ds).frames, id)
  {
    hide Run, Admit, Ordered, SendableStream, FragmentOfSome, Numbered;
    forall i | 0 <= i < |ds| ensures AdmittedIdsNumbered(p, rx, ds[i]) {
      assert FromStream(p, sessionId, tx, rx, frames, ds[i]);
      if Admit(p, rx, ds[i]).Some? { FragmentNumbered(tx, frames, Admit(p, rx, ds[i]).value); }
    }
    FramesIncrease(p, rx, s, ds);
  }

  lemma TailFromStream(p: Primitives, sessionId: uint32, tx: Arming, rx: Arming, frames: seq<VideoFrame>,
                       ds: seq<seq<byte>>)
    requires AllFromStream(p, sessionId, tx, rx, frames, ds) && ds != []
    ensures FromStream(p, sessionId, tx, rx, frames, ds[0])
    ensures AllFromStream(p, sessionId, tx, rx, frames, ds[1..])
  {
    hide FromStream;
  }

  lemma RunHead(p: Primitives, rx: Arming, s: State, ds: seq<seq<byte>>, id: uint32)
    requires ds != []
    ensures var o := Push(p, rx, s, ds[0]);
            var rest := Run(p, rx, o.state, ds[1..]).frames;
      && (Emits(Run(p, rx, s, ds).frames, id) <==>
            (o.effects.frame.Some? && o.effects.frame.value.frameId == id) || Emits(rest, id))
      && (forall g :: g in Run(p, rx, s, ds).frames ==> o.effects.frame == Some(g) || g in rest)
  {
    hide Push;
    var o := Push(p, rx, s, ds[0]);
    ListedEmits(o.effects.frame, Run(p, rx, o.state, ds[1..]).frames, id);
  }

  lemma ListedEmits(first: Option<VideoFrame>, rest: seq<VideoFrame>, id: uint32)
    ensures Emits(Listed(first) + rest, id) <==> (first.Some? && first.value.frameId == id) || Emits(rest, id)
    ensures forall g :: g in Listed(first) + rest ==> first == Some(g) || g in rest
  {
    var all, n := Listed(first) + rest, |Listed(first)|;
    if first.Some? { assert all[0] == first.value; }
    if i :| 0 <= i < |rest| && rest[i].frameId == id { assert all[n + i] == rest[i]; }
  }

  lemma {:induction false} NeverOnceCrowded(p: Primitives, sessionId: uint32, tx: Arming, rx: Arming,
                                            frames: seq<VideoFrame>, k: nat, s: State, accepted: set<uint32>,
                                            ds: seq<seq<byte>>)
    requires SendableStream(tx, frames) && k < |frames| && Receiving(sessionId, s, accepted)
    requires AllFromStream(p, sessionId, tx, rx, frames, ds) && Crowded(frames[k], s) && Count(tx, frames[k]) > 1
    ensures !Emits(Run(p, rx, s, ds).frames, frames[k].frameId)
    decreases |ds|
  {
    hide Push, SendableStream, Receiving, AllFromStream, FromStream, Crowded, Count, Ordered, AcceptedWith, Emits;
    hide Numbered;
    if ds == [] {
      NothingEmitted(frames[k].frameId);
    } else {
      var o := Push(p, rx, s, ds[0]);
      TailFromStream(p, sessionId, tx, rx, frames, ds);
      CrowdedStep(p, sessionId, tx, rx, frames, k, s, accepted, ds[0]);
      PushReceiving(p, sessionId, tx, rx, frames, s, accepted, ds[0]);
      RunHead(p, rx, s, ds, frames[k].frameId);
      hide Run;
      var now := AcceptedWith(p, rx, accepted, ds[0]);
      if Crowded(frames[k], o.state) {
        NeverOnceCrowded(p, sessionId, tx, rx, frames, k, o.state, now, ds[1..]);
      } else {
        ReceivingOrdered(sessionId, o.state, now);
        NotAfterNewer(p, sessionId, tx, rx, frames, frames[k].frameId, o.state, ds[1..]);
      }
    }
  }

  lemma NothingEmitted(id: uint32)
    ensures !Emits([], id)
  {
  }

  lemma ReceivingOrdered(sessionId: uint32, s: State, accepted: set<uint32>)
    requires Receiving(sessionId, s, accepted)
    ensures Ordered(s)
  {
  }

  // ---- Exactly when a frame comes out ----

  /**
    Until a frame under f's id is emitted nothing newer is, and never are sixteen newer frames pending (which
    matters only to a frame that has to wait for a second fragment).
  */
  ghost predicate Undisturbed(p: Primitives, tx: Arming, rx: Arming, f: VideoFrame, s: State, ds: seq<seq<byte>>)
    decreases |ds|
  {
    ds == [] ||
    var o := Push(p, rx, s, ds[0]);
    if o.effects.frame.Some? && o.effects.frame.value.frameId >= f.frameId
    then o.effects.frame.value.frameId == f.frameId
    else (Count(tx, f) > 1 ==> !Crowded(f, o.state)) && Undisturbed(p, tx, rx, f, o.state, ds[1..])
  }

  /** As long as it is not complete, some fragment of a frame is missing. */
  lemma SomeMissing(tx: Arming, f: VideoFrame, held: map<uint16, seq<byte>>, pending: PendingFrames) returns (j: uint16)
    requires Sendable(tx, f) && Growing(tx, f, held, pending)
    ensures j < Count(tx, f) && j !in Held(pending, f.frameId)
  {
    CountPositive(tx, f);
    hide Count, Sendable;
    assert |Held(pending, f.frameId).Keys| < Count(tx, f);
    j := MissingIndex(Held(pending, f.frameId).Keys, Count(tx, f));
  }

  lemma {:induction false} MissingIndex(got: set<uint16>, n: uint16) returns (j: uint16)
    requires |got| < n
    ensures j < n && j !in got
    decreases n
  {
    if n - 1 !in got {
      j := n - 1;
    } else {
      j := MissingIndex(got - {n - 1}, n - 1);
    }
  }

  lemma DueArrives(p: Primitives, tx: Arming, rx: Arming, f: VideoFrame, held: map<uint16, seq<byte>>, s: State,
                   accepted: set<uint32>, ds: seq<seq<byte>>)
    requires Sendable(tx, f) && Growing(tx, f, held, s.pending) && Due(p, tx, rx, f, s, accepted, ds)
    ensures ds != []
  {
    var j := SomeMissing(tx, f, held, s.pending);
    hide Count, Brings, Held, Sendable;
    assert Arrives(p, rx, f, s, accepted, ds, j);
  }

  lemma DueStep(p: Primitives, tx: Arming, rx: Arming, f: VideoFrame, s: State, accepted: set<uint32>,
                ds: seq<seq<byte>>)
    requires ds != []
    requires var t := Push(p, rx, s, ds[0]).state;
      Held(t.pending, f.frameId).Keys == Held(s.pending, f.frameId).Keys + Gains(p, rx, f, s, accepted, ds[0])
    ensures Due(p, tx, rx, f, s, accepted, ds) <==>
      Due(p, tx, rx, f, Push(p, rx, s, ds[0]).state, AcceptedWith(p, rx, accepted, ds[0]), ds[1..])
  {
    hide Push, Count, AcceptedWith, Gains, Held, Arrives;
    forall j: uint16 | j < Count(tx, f)
      ensures Arrives(p, rx, f, s, accepted, ds, j) <==>
        || j in Gains(p, rx, f, s, accepted, ds[0])
        || Arrives(p, rx, f, Push(p, rx, s, ds[0]).state, AcceptedWith(p, rx, accepted, ds[0]), ds[1..], j)
    {
      ArrivesStep(p, rx, f, s, accepted, ds, j);
    }
  }

  /** The last missing fragment is taken: all were due. */
  lemma DueAtOnce(p: Primitives, tx: Arming, rx: Arming, f: VideoFrame, s: State, accepted: set<uint32>,
                  ds: seq<seq<byte>>)
    requires ds != []
    requires forall j: uint16 :: j < Count(tx, f) ==>
      j in Held(s.pending, f.frameId).Keys + Gains(p, rx, f, s, accepted, ds[0])
    ensures Due(p, tx, rx, f, s, accepted, ds)
  {
    hide Count, Held, Gains, Arrives;
    forall j: uint16 | j < Count(tx, f)
      ensures j in Held(s.pending, f.frameId) || Arrives(p, rx, f, s, accepted, ds, j)
    {
      assert j in Held(s.pending, f.frameId).Keys + Gains(p, rx, f, s, accepted, ds[0]);
      ArrivesStep(p, rx, f, s, accepted, ds, j);
    }
  }

  lemma UndisturbedStep(p: Primitives, tx: Arming, rx: Arming, f: VideoFrame, s: State, ds: seq<seq<byte>>)
    requires ds != []
    ensures var o := Push(p, rx, s, ds[0]);
      Undisturbed(p, tx, rx, f, s, ds) <==>
        if o.effects.frame.Some? && o.effects.frame.value.frameId >= f.frameId
        then o.effects.frame.value.frameId == f.frameId
        else (Count(tx, f) > 1 ==> !Crowded(f, o.state)) && Undisturbed(p, tx, rx, f, o.state, ds[1..])
  {
    hide Push, Count, Crowded;
  }

  lemma {:induction false} EmittedFrom(p: Primitives, sessionId: uint32, tx: Arming, rx: Arming,
                                       frames: seq<VideoFrame>, k: nat, held: map<uint16, seq<byte>>, s: State,
                                       accepted: set<uint32>, ds: seq<seq<byte>>)
    requires SendableStream(tx, frames) && k < |frames| && AllFromStream(p, sessionId, tx, rx, frames, ds)
    requires Receiving(sessionId, s, accepted) && Growing(tx, frames[k], held, s.pending)
    ensures Emits(Run(p, rx, s, ds).frames, frames[k].frameId)
            <==> Due(p, tx, rx, frames[k], s, accepted, ds) && Undisturbed(p, tx, rx, frames[k], s, ds)
    ensures forall g :: g in Run(p, rx, s, ds).frames && g.frameId == frames[k].frameId ==>
      g == Resulting(tx, frames[k], held)
    decreases |ds|
  {
    hide Push, SendableStream, Receiving, AllFromStream, FromStream, Crowded, Count, Ordered, AcceptedWith, Emits;
    hide Numbered, Growing, Held, Gains, Due, Undisturbed, Resulting, Run, Admit;
    var f := frames[k];
    SendableAt(tx, frames, k);
    hide Sendable;
    if ds == [] {
      NothingEmitted(f.frameId);
      RunNothing(p, rx, s, ds);
      if Due(p, tx, rx, f, s, accepted, ds) { DueArrives(p, tx, rx, f, held, s, accepted, ds); }
    } else {
      var o := Push(p, rx, s, ds[0]);
      var taken := AcceptedWith(p, rx, accepted, ds[0]);
      TailFromStream(p, sessionId, tx, rx, frames, ds);
      PushReceiving(p, sessionId, tx, rx, frames, s, accepted, ds[0]);
      RunHead(p, rx, s, ds, f.frameId);
      UndisturbedStep(p, tx, rx, f, s, ds);
      ReceivingOrdered(sessionId, o.state, taken);
      if o.effects.frame.Some? && o.effects.frame.value.frameId >= f.frameId {
        NotAfterNewer(p, sessionId, tx, rx, frames, f.frameId, o.state, ds[1..]);
        EmitsMember(Run(p, rx, o.state, ds[1..]).frames, f.frameId);
        if o.effects.frame.value.frameId == f.frameId {
          CompletedStep(p, sessionId, tx, rx, frames, k, held, s, accepted, ds[0]);
          DueAtOnce(p, tx, rx, f, s, accepted, ds);
        }
      } else if Count(tx, f) > 1 && Crowded(f, o.state) {
        NeverOnceCrowded(p, sessionId, tx, rx, frames, k, o.state, taken, ds[1..]);
        EmitsMember(Run(p, rx, o.state, ds[1..]).frames, f.frameId);
      } else {
        GrowsStep(p, sessionId, tx, rx, frames, k, held, s, accepted, ds[0]);
        DueStep(p, tx, rx, f, s, accepted, ds);
        EmittedFrom(p, sessionId, tx, rx, frames, k, held, o.state, taken, ds[1..]);
      }
    }
  }

  lemma EmitsMember(frames: seq<VideoFrame>, id: uint32)
    ensures !Emits(frames, id) ==> forall g :: g in frames ==> g.frameId != id
  {
  }

  /** What is pending under f's id, if anything, has f's description and lacks a fragment. */
  ghost predicate HeldShaped(tx: Arming, f: VideoFrame, s: State) {
    Growing(tx, f, Held(s.pending, f.frameId), s.pending)
  }

  /**
    Delivery under loss. On any run of genuine datagrams, from any state in which nothing but fragments so described
    is held under f's id, a frame with that id comes out if and only if every fragment is held or arrives in time
    and the frame is undisturbed; and it is f but for the pieces that were held to begin with.
  */
  lemma FrameEmittedIff(p: Primitives, sessionId: uint32, tx: Arming, rx: Arming, frames: seq<VideoFrame>,
                        sequence: uint32, k: nat, s: State, accepted: set<uint32>, ds: seq<seq<byte>>)
    requires p.Laws() && Compatible(tx, rx) && SendableStream(tx, frames) && k < |frames|
    requires OnlyGenuineAdmitted(p, rx, Sent(p, sessionId, tx, frames, sequence), ds)
    requires Receiving(sessionId, s, accepted) && HeldShaped(tx, frames[k], s)
    ensures var f := frames[k];
            var emitted := Run(p, rx, s, ds).frames;
      && (Emits(emitted, f.frameId) <==> Due(p, tx, rx, f, s, accepted, ds) && Undisturbed(p, tx, rx, f, s, ds))
      && (forall g :: g in emitted && g.frameId == f.frameId ==>
            g == Resulting(tx, f, Held(s.pending, f.frameId)))
  {
    hide Run, Undisturbed, OnlyGenuineAdmitted, Sent, SendableStream, Receiving, Growing, Due, Compatible, Emits, Held;
    GenuineIsFromStream(p, sessionId, tx, rx, frames, sequence, ds);
    EmittedFrom(p, sessionId, tx, rx, frames, k, Held(s.pending, frames[k].frameId), s, accepted, ds);
  }

  /**
    So what was held before the stream began comes out in the place of what was sent: the result is the sent frame
    exactly if the pieces held and the pieces sent beside them join to its data. Arming does not forget them.
  */
  lemma HeldFragmentsEmerge(p: Primitives, sessionId: uint32, tx: Arming, rx: Arming, frames: seq<VideoFrame>,
                            sequence: uint32, k: nat, s: State, accepted: set<uint32>, ds: seq<seq<byte>>)
    requires p.Laws() && Compatible(tx, rx) && SendableStream(tx, frames) && k < |frames|
    requires OnlyGenuineAdmitted(p, rx, Sent(p, sessionId, tx, frames, sequence), ds)
    requires Receiving(sessionId, s, accepted) && HeldShaped(tx, frames[k], s)
    requires Due(p, tx, rx, frames[k], s, accepted, ds) && Undisturbed(p, tx, rx, frames[k], s, ds)
    ensures var f := frames[k];
            var held := Held(s.pending, f.frameId);
            var emitted := Run(p, rx, s, ds).frames;
      && f.(data := Mixed(tx, f, held, Count(tx, f))) in emitted
      && (f in emitted <==> Mixed(tx, f, held, Count(tx, f)) == f.data)
  {
    hide Run, Undisturbed, OnlyGenuineAdmitted, Sent, SendableStream, Receiving, HeldShaped, Due, Compatible;
    hide Held, Mixed, Count;
    var f, emitted := frames[k], Run(p, rx, s, ds).frames;
    FrameEmittedIff(p, sessionId, tx, rx, frames, sequence, k, s, accepted, ds);
    var i :| 0 <= i < |emitted| && emitted[i].frameId == f.frameId;
    assert emitted[i] in emitted;
    assert f in emitted ==> f == Resulting(tx, f, Held(s.pending, f.frameId));
  }

  /** With genuine fragments only, f itself comes out. */
  lemma GenuineFrameEmittedIff(p: Primitives, sessionId: uint32, tx: Arming, rx: Arming, frames: seq<VideoFrame>,
                               sequence: uint32, k: nat, s: State, accepted: set<uint32>, ds: seq<seq<byte>>)
    requires p.Laws() && Compatible(tx, rx) && SendableStream(tx, frames) && k < |frames|
    requires OnlyGenuineAdmitted(p, rx, Sent(p, sessionId, tx, frames, sequence), ds)
    requires Receiving(sessionId, s, accepted) && PendingGenuine(tx, frames, s)
    ensures frames[k] in Run(p, rx, s, ds).frames
            <==> Due(p, tx, rx, frames[k], s, accepted, ds) && Undisturbed(p, tx, rx, frames[k], s, ds)
  {
    hide Run, Undisturbed, OnlyGenuineAdmitted, Sent, Receiving, Due, Compatible, Sendable;
    var f, emitted := frames[k], Run(p, rx, s, ds).frames;
    GenuineIsShaped(tx, frames, k, s);
    FrameEmittedIff(p, sessionId, tx, rx, frames, sequence, k, s, accepted, ds);
    if i :| 0 <= i < |emitted| && emitted[i].frameId == f.frameId { assert emitted[i] in emitted; }
    if f in emitted {
      var i :| 0 <= i < |emitted| && emitted[i] == f;
      assert Emits(emitted, f.frameId);
    }
  }

  lemma GenuineIsShaped(tx: Arming, frames: seq<VideoFrame>, k: nat, s: State)
    requires SendableStream(tx, frames) && PendingGenuine(tx, frames, s) && k < |frames|
    ensures HeldShaped(tx, frames[k], s)
    ensures Resulting(tx, frames[k], Held(s.pending, frames[k].frameId)) == frames[k]
  {
    hide Chunk, FragmentCount, MaxPlaintext, Mixed, Resulting;
    ResultingGenuine(tx, frames[k], Held(s.pending, frames[k].frameId));
  }

  // ---- A condition on arrivals alone ----

  /** Some fragment of the frame is neither held nor brought by any of these datagrams. */
  ghost predicate Incomplete(p: Primitives, tx: Arming, rx: Arming, g: VideoFrame, s: State, ds: seq<seq<byte>>) {
    HeldShaped(tx, g, s) && exists j :: 0 <= j < Count(tx, g) && Lacks(p, rx, g.frameId, j, s, ds)
  }

  ghost predicate Lacks(p: Primitives, rx: Arming, id: uint32, j: uint16, s: State, ds: seq<seq<byte>>) {
    j !in Held(s.pending, id) && forall h :: 0 <= h < |ds| ==> !Brings(p, rx, ds[h], id, j)
  }

  /** `newer` names at most 15 frames newer than f, the only ones that are held or arrive, and none of them whole. */
  ghost predicate Uncrowded(p: Primitives, tx: Arming, rx: Arming, frames: seq<VideoFrame>, f: VideoFrame,
                            newer: set<uint32>, s: State, ds: seq<seq<byte>>)
  {
    && |newer| < MAX_PENDING
    && (forall id :: id in s.pending && id > f.frameId ==> id in newer)
    && (forall h :: 0 <= h < |ds| ==> AnnouncesOldOr(p, rx, f, newer, ds[h]))
    && forall m :: 0 <= m < |frames| && frames[m].frameId in newer ==> Incomplete(p, tx, rx, frames[m], s, ds)
  }

  ghost predicate AnnouncesOldOr(p: Primitives, rx: Arming, f: VideoFrame, newer: set<uint32>, d: seq<byte>) {
    Admit(p, rx, d).Some? ==>
      var id := Admit(p, rx, d).value.header.frameId; id <= f.frameId || id in newer
  }

  /** A shaped entry stays shaped, and gains what is taken or loses everything. */
  lemma ShapeStep(p: Primitives, sessionId: uint32, tx: Arming, rx: Arming, frames: seq<VideoFrame>, m: nat, s: State,
                  accepted: set<uint32>, d: seq<byte>)
    requires SendableStream(tx, frames) && m < |frames| && Receiving(sessionId, s, accepted)
    requires FromStream(p, sessionId, tx, rx, frames, d) && HeldShaped(tx, frames[m], s)
    requires var frame := Push(p, rx, s, d).effects.frame; frame.Some? ==> frame.value.frameId != frames[m].frameId
    ensures var t := Push(p, rx, s, d).state;
      && HeldShaped(tx, frames[m], t)
      && Held(t.pending, frames[m].frameId).Keys
         <= Held(s.pending, frames[m].frameId).Keys + Gains(p, rx, frames[m], s, accepted, d)
  {
    hide Admit, SendableStream, IsFragment, Filter.Remembers, Filter.Fresh, Receive, Collect, Count, Shaped;
    hide Inv, FragmentOfSome, Open, Ordered, Entry, Complete, FrameOf;
    var g, a := frames[m], Admit(p, rx, d);
    SendableAt(tx, frames, m);
    if a.Some? {
      NotedKeeps(s, a.value);
      hide Noted;
      if a.value.header.frameId == g.frameId {
        FragmentIsMine(tx, frames, m, a.value);
        ReceiveMine(tx, g, s, a.value, accepted);
        if Takes(p, rx, g, s, accepted, d) { ShapedCollect(tx, g, Noted(s, a.value), a.value); }
      } else {
        ReceiveCases(s, a.value, accepted);
        OtherUnchanged(Noted(s, a.value), a.value, g.frameId);
      }
    }
  }

  lemma ShapedCollect(tx: Arming, g: VideoFrame, s: State, a: Admitted)
    requires Sendable(tx, g) && IsFragment(tx, g, a) && HeldShaped(tx, g, s)
    requires var frame := Collect(s, a).effects.frame; frame.Some? ==> frame.value.frameId != g.frameId
    ensures var t := Collect(s, a).state;
      && HeldShaped(tx, g, t)
      && Held(t.pending, g.frameId).Keys <= Held(s.pending, g.frameId).Keys + {a.header.fragmentIndex}
  {
    hide Sendable, IsFragment, Collect, Entry, Complete, FrameOf, Resulting, Count;
    var e := Entry(s.pending, a);
    EntryShaped(tx, g, Held(s.pending, g.frameId), s.pending, a);
    MineById(tx, g, a);
    CollectKeepsEntries(s, a);
    EmittedId(e);
    ShapedAnew(tx, g, Held(s.pending, g.frameId), e);
    assert |e.fragments| == |e.fragments.Keys|;
    hide Shaped;
  }

  lemma ShapedAnew(tx: Arming, g: VideoFrame, held: map<uint16, seq<byte>>, e: PendingFrame)
    requires Shaped(tx, g, held, e)
    ensures Shaped(tx, g, e.fragments, e)
  {
    hide Count;
  }

  lemma IncompleteStep(p: Primitives, sessionId: uint32, tx: Arming, rx: Arming, frames: seq<VideoFrame>, m: nat,
                       s: State, accepted: set<uint32>, ds: seq<seq<byte>>)
    requires SendableStream(tx, frames) && m < |frames| && Receiving(sessionId, s, accepted)
    requires ds != [] && FromStream(p, sessionId, tx, rx, frames, ds[0])
    requires Incomplete(p, tx, rx, frames[m], s, ds)
    ensures var o := Push(p, rx, s, ds[0]);
      && Incomplete(p, tx, rx, frames[m], o.state, ds[1..])
      && (o.effects.frame.Some? ==> o.effects.frame.value.frameId != frames[m].frameId)
  {
    hide Brings, SendableStream, Receiving, FromStream, Push, Count, Growing, Gains, Held;
    var g, o := frames[m], Push(p, rx, s, ds[0]);
    var j: uint16 :| 0 <= j < Count(tx, g) && Lacks(p, rx, g.frameId, j, s, ds);
    assert !Brings(p, rx, ds[0], g.frameId, j);
    NotGained(p, rx, g, s, accepted, ds[0], j);
    assert j !in Held(s.pending, g.frameId).Keys + Gains(p, rx, g, s, accepted, ds[0]);
    if o.effects.frame.Some? && o.effects.frame.value.frameId == g.frameId {
      CompletedStep(p, sessionId, tx, rx, frames, m, Held(s.pending, g.frameId), s, accepted, ds[0]);
      assert false;
    }
    ShapeStep(p, sessionId, tx, rx, frames, m, s, accepted, ds[0]);
    assert Lacks(p, rx, g.frameId, j, o.state, ds[1..]);
  }

  lemma NotGained(p: Primitives, rx: Arming, g: VideoFrame, s: State, accepted: set<uint32>, d: seq<byte>, j: uint16)
    requires !Brings(p, rx, d, g.frameId, j)
    ensures j !in Gains(p, rx, g, s, accepted, d)
  {
    hide Admit, Filter.Fresh, Open;
  }

  /** What is pending afterwards was pending or is announced by the packet; what is emitted is announced by it. */
  lemma PushAnnounces(p: Primitives, sessionId: uint32, tx: Arming, rx: Arming, frames: seq<VideoFrame>, s: State,
                      d: seq<byte>)
    requires Ordered(s) && SendableStream(tx, frames) && FromStream(p, sessionId, tx, rx, frames, d)
    ensures var o := Push(p, rx, s, d);
      && (forall id :: id in o.state.pending ==>
            id in s.pending || (Admit(p, rx, d).Some? && id == Admit(p, rx, d).value.header.frameId))
      && (o.effects.frame.Some? ==>
            Admit(p, rx, d).Some? && o.effects.frame.value.frameId == Admit(p, rx, d).value.header.frameId)
  {
    hide Admit, Collect, Entry, Complete, FrameOf, Filter.Step, Stale, SendableStream, FragmentOfSome, Ordered;
    var a := Admit(p, rx, d);
    if a.Some? {
      EntryIdNumbered(tx, frames, s, a.value);
      CollectKeepsEntries(Noted(s, a.value), a.value);
      EmittedId(Entry(s.pending, a.value));
    }
  }

  lemma FewNewer(f: VideoFrame, newer: set<uint32>, s: State)
    requires |newer| < MAX_PENDING && forall id :: id in s.pending && id > f.frameId ==> id in newer
    ensures !Crowded(f, s)
  {
    SubsetNotLarger(Newer(s.pending, f.frameId).Keys, newer);
  }

  lemma UncrowdedStep(p: Primitives, sessionId: uint32, tx: Arming, rx: Arming, frames: seq<VideoFrame>, k: nat,
                      newer: set<uint32>, s: State, accepted: set<uint32>, ds: seq<seq<byte>>)
    requires SendableStream(tx, frames) && k < |frames| && Receiving(sessionId, s, accepted)
    requires ds != [] && FromStream(p, sessionId, tx, rx, frames, ds[0])
    requires Uncrowded(p, tx, rx, frames, frames[k], newer, s, ds)
    ensures var o := Push(p, rx, s, ds[0]);
      && Uncrowded(p, tx, rx, frames, frames[k], newer, o.state, ds[1..])
      && !Crowded(frames[k], o.state)
      && (o.effects.frame.Some? ==> o.effects.frame.value.frameId <= frames[k].frameId)
  {
    hide SendableStream, Push, Count, Incomplete, Crowded, Admit, Ordered, Inv, Filter.Remembers, FragmentOfSome;
    var o := Push(p, rx, s, ds[0]);
    PushAnnounces(p, sessionId, tx, rx, frames, s, ds[0]);
    assert AnnouncesOldOr(p, rx, frames[k], newer, ds[0]);
    forall m | 0 <= m < |frames| && frames[m].frameId in newer
      ensures Incomplete(p, tx, rx, frames[m], o.state, ds[1..])
      ensures o.effects.frame.Some? ==> o.effects.frame.value.frameId != frames[m].frameId
    {
      IncompleteStep(p, sessionId, tx, rx, frames, m, s, accepted, ds);
    }
    FewNewer(frames[k], newer, o.state);
    if o.effects.frame.Some? {
      var m := AnnouncedFrame(p, sessionId, tx, rx, frames, ds[0]);
    }
  }

  /** An admitted packet names a frame of the stream. */
  lemma AnnouncedFrame(p: Primitives, sessionId: uint32, tx: Arming, rx: Arming, frames: seq<VideoFrame>, d: seq<byte>)
    returns (m: nat)
    requires FromStream(p, sessionId, tx, rx, frames, d) && Admit(p, rx, d).Some?
    ensures m < |frames| && frames[m].frameId == Admit(p, rx, d).value.header.frameId
  {
    hide Admit;
    m :| 0 <= m < |frames| && IsFragment(tx, frames[m], Admit(p, rx, d).value);
  }

  lemma {:induction false} UncrowdedIsUndisturbed(p: Primitives, sessionId: uint32, tx: Arming, rx: Arming,
                                                  frames: seq<VideoFrame>, k: nat, newer: set<uint32>, s: State,
                                                  accepted: set<uint32>, ds: seq<seq<byte>>)
    requires SendableStream(tx, frames) && k < |frames| && Receiving(sessionId, s, accepted)
    requires AllFromStream(p, sessionId, tx, rx, frames, ds)
    requires Uncrowded(p, tx, rx, frames, frames[k], newer, s, ds)
    ensures Undisturbed(p, tx, rx, frames[k], s, ds)
    decreases |ds|
  {
    hide SendableStream, Receiving, AllFromStream, FromStream, Uncrowded, Crowded, Push, Count;
    if ds != [] {
      TailFromStream(p, sessionId, tx, rx, frames, ds);
      UncrowdedStep(p, sessionId, tx, rx, frames, k, newer, s, accepted, ds);
      PushReceiving(p, sessionId, tx, rx, frames, s, accepted, ds[0]);
      UncrowdedIsUndisturbed(p, sessionId, tx, rx, frames, k, newer, Push(p, rx, s, ds[0]).state,
                             AcceptedWith(p, rx, accepted, ds[0]), ds[1..]);
    }
  }

  /**
    Loss elsewhere does not cost a frame that arrives itself: if by the time its packets are in, at most 15 newer
    frames have begun to arrive and none is whole, it is emitted - however many packets of older frames are missing.
  */
  lemma FrameSurvivesLoss(p: Primitives, sessionId: uint32, tx: Arming, rx: Arming, frames: seq<VideoFrame>,
                          sequence: uint32, k: nat, newer: set<uint32>, s: State, accepted: set<uint32>,
                          ds: seq<seq<byte>>)
    requires p.Laws() && Compatible(tx, rx) && SendableStream(tx, frames) && k < |frames|
    requires OnlyGenuineAdmitted(p, rx, Sent(p, sessionId, tx, frames, sequence), ds)
    requires Receiving(sessionId, s, accepted) && HeldShaped(tx, frames[k], s)
    requires Due(p, tx, rx, frames[k], s, accepted, ds) && Uncrowded(p, tx, rx, frames, frames[k], newer, s, ds)
    ensures Resulting(tx, frames[k], Held(s.pending, frames[k].frameId)) in Run(p, rx, s, ds).frames
  {
    hide Run, Undisturbed, OnlyGenuineAdmitted, Sent, SendableStream, Receiving, HeldShaped, Due, Compatible, Uncrowded;
    hide Held, Mixed, Count;
    GenuineIsFromStream(p, sessionId, tx, rx, frames, sequence, ds);
    UncrowdedIsUndisturbed(p, sessionId, tx, rx, frames, k, newer, s, accepted, ds);
    HeldFragmentsEmerge(p, sessionId, tx, rx, frames, sequence, k, s, accepted, ds);
  }
}
