/**
  What a receiver keeps from before it was armed - arming clears neither the pending frames nor the id of the last
  emitted one - and what becomes of a stream that meets it.
*/
module Leftovers {
  import opened Wrappers
  import opened Bytes
  import opened Protocol
  import opened Crypto
  import Filter = ReplayFilter
  import opened Packetizer
  import opened Reassembler
  import opened ReassemblerInvariants
  import opened Integrity
  import opened Survival

  // ---- Fragments collected unkeyed ----

  /** An unkeyed fragment of a keyframe of several, numbered above `bound`. */
  ghost predicate Filler(p: Primitives, d: seq<byte>, sessionId: uint32, bound: uint32) {
    && Admit(p, Plain, d).Some?
    && var h := Admit(p, Plain, d).value.header;
       h.sessionId == sessionId && h.IsKeyframe() && h.fragmentCount > 1 && h.frameId > bound
  }

  ghost function IdOf(p: Primitives, d: seq<byte>): uint32
    requires Admit(p, Plain, d).Some?
  {
    Admit(p, Plain, d).value.header.frameId
  }

  /** Under ids of their own, and in the order of their sequence numbers. */
  ghost predicate Fillers(p: Primitives, ds: seq<seq<byte>>, sessionId: uint32, bound: uint32) {
    && (forall i :: 0 <= i < |ds| ==> Filler(p, ds[i], sessionId, bound))
    && forall i, j :: 0 <= i < j < |ds| ==>
         IdOf(p, ds[i]) != IdOf(p, ds[j]) && Number(p, Plain, ds[i]) < Number(p, Plain, ds[j])
  }

  /** Still waiting, with so many frames pending, all above the bound and none of them met by the next packets. */
  ghost predicate Filled(p: Primitives, s: State, accepted: set<uint32>, sessionId: uint32, bound: uint32, n: nat,
                         ds: seq<seq<byte>>)
  {
    && s.waiting && Inv(s) && |s.pending| == n
    && (forall id :: id in s.pending ==> id > bound)
    && (s.sessionLocked ==> s.expectedSession == sessionId)
    && Filter.Remembers(s.replay, accepted) && Unmet(p, s.pending, accepted, ds)
  }

  /** Ids and numbers that are new to the receiver. */
  ghost predicate Unmet(p: Primitives, pending: PendingFrames, accepted: set<uint32>, ds: seq<seq<byte>>) {
    forall i :: 0 <= i < |ds| ==>
      && Admit(p, Plain, ds[i]).Some? && IdOf(p, ds[i]) !in pending
      && forall x :: x in accepted ==> x < Number(p, Plain, ds[i])
  }

  lemma UnmetTail(p: Primitives, pending: PendingFrames, later: PendingFrames, accepted: set<uint32>,
                  ds: seq<seq<byte>>, sessionId: uint32, bound: uint32)
    requires Fillers(p, ds, sessionId, bound) && ds != [] && Unmet(p, pending, accepted, ds)
    requires later.Keys == pending.Keys + {IdOf(p, ds[0])}
    ensures Unmet(p, later, accepted + {Number(p, Plain, ds[0])}, ds[1..])
  {
    hide Admit, Filler;
    forall i | 0 <= i < |ds[1..]|
      ensures Admit(p, Plain, ds[1..][i]).Some? && IdOf(p, ds[1..][i]) !in later
      ensures forall x :: x in accepted + {Number(p, Plain, ds[0])} ==> x < Number(p, Plain, ds[1..][i])
    {
      assert ds[1..][i] == ds[i + 1];
    }
  }

  /** The first fragment of several only adds an entry. */
  lemma FirstFragmentStored(s: State, a: Admitted)
    requires a.header.frameId != 0 && a.header.frameId !in s.pending && a.header.fragmentCount > 1
    requires |s.pending| < MAX_PENDING
    ensures var o := Collect(s, a);
      && o.effects.frame == None && o.state.waiting == s.waiting
      && o.state.pending.Keys == s.pending.Keys + {a.header.frameId} && |o.state.pending| == |s.pending| + 1
  {
    hide Joined;
    var stored := s.pending[a.header.frameId := Entry(s.pending, a)];
    assert stored.Keys == s.pending.Keys + {a.header.frameId};
    assert |stored| == |s.pending| + 1;
  }

  lemma FillerStep(p: Primitives, s: State, accepted: set<uint32>, sessionId: uint32, bound: uint32, n: nat,
                   ds: seq<seq<byte>>)
    requires Fillers(p, ds, sessionId, bound) && ds != [] && n < MAX_PENDING
    requires Filled(p, s, accepted, sessionId, bound, n, ds)
    ensures var o := Push(p, Plain, s, ds[0]);
      && o.effects.frame == None
      && Filled(p, o.state, accepted + {Number(p, Plain, ds[0])}, sessionId, bound, n + 1, ds[1..])
  {
    hide Admit, Collect, Filter.Remembers, Inv, Receive, Unmet;
    assert Filler(p, ds[0], sessionId, bound);
    FirstUnmet(p, s, accepted, ds);
    var a := Admit(p, Plain, ds[0]).value;
    ReceiveCases(s, a, accepted);
    ReplayAfter(s, a, accepted, sessionId);
    ReceiveKeepsInv(s, a);
    FirstFragmentStored(Noted(s, a), a);
    hide Noted, Fillers;
    UnmetTail(p, s.pending, Push(p, Plain, s, ds[0]).state.pending, accepted, ds, sessionId, bound);
  }

  lemma FirstUnmet(p: Primitives, s: State, accepted: set<uint32>, ds: seq<seq<byte>>)
    requires Unmet(p, s.pending, accepted, ds) && ds != []
    ensures Admit(p, Plain, ds[0]).Some? && IdOf(p, ds[0]) !in s.pending
    ensures Filter.Fresh(accepted, Number(p, Plain, ds[0]))
  {
    hide Admit;
  }

  lemma FillersTail(p: Primitives, ds: seq<seq<byte>>, sessionId: uint32, bound: uint32)
    requires Fillers(p, ds, sessionId, bound) && ds != []
    ensures Fillers(p, ds[1..], sessionId, bound)
  {
    hide Admit;
    assert forall i :: 0 <= i < |ds[1..]| ==> ds[1..][i] == ds[i + 1];
  }

  /** Each such fragment adds one pending frame, and none comes out. */
  lemma {:induction false} FillersFill(p: Primitives, s: State, accepted: set<uint32>, sessionId: uint32,
                                       bound: uint32, n: nat, ds: seq<seq<byte>>)
    requires Fillers(p, ds, sessionId, bound) && Filled(p, s, accepted, sessionId, bound, n, ds)
    requires n + |ds| <= MAX_PENDING
    ensures var r := Run(p, Plain, s, ds);
      && r.frames == [] && r.state.waiting && |r.state.pending| == n + |ds|
      && forall id :: id in r.state.pending ==> id > bound
    decreases |ds|
  {
    hide Push, Fillers;
    if ds != [] {
      FillerStep(p, s, accepted, sessionId, bound, n, ds);
      FillersTail(p, ds, sessionId, bound);
      hide Filled;
      FillersFill(p, Push(p, Plain, s, ds[0]).state, accepted + {Number(p, Plain, ds[0])}, sessionId, bound, n + 1,
                  ds[1..]);
    }
  }

  lemma FilledFromNew(p: Primitives, sessionId: uint32, bound: uint32, ds: seq<seq<byte>>)
    requires Fillers(p, ds, sessionId, bound) && |ds| <= MAX_PENDING
    ensures var r := Run(p, Plain, Reassembler.INITIAL, ds);
      && r.frames == [] && r.state.waiting && |r.state.pending| == |ds|
      && (forall id :: id in r.state.pending ==> id > bound)
      && Inv(r.state) && Ordered(r.state)
  {
    assert Filled(p, Reassembler.INITIAL, {}, sessionId, bound, 0, ds) by {
      forall i | 0 <= i < |ds| ensures Admit(p, Plain, ds[i]).Some? {
        assert Filler(p, ds[i], sessionId, bound);
      }
      hide Admit;
    }
    hide Run, Fillers, Filled;
    FillersFill(p, Reassembler.INITIAL, {}, sessionId, bound, 0, ds);
    RunKeeps(p, Plain, Reassembler.INITIAL, ds);
  }

  // ---- Such fragments exist ----

  /** A bare header that announces the first of two fragments of a keyframe. */
  function FillerHeader(sessionId: uint32, id: uint32, number: uint32): PacketHeader {
    PacketHeader(MAGIC, VERSION, FLAG_KEYFRAME, VIDEO_STREAM, sessionId, id, number, 0, 2, 0, 0)
  }

  function FillerRun(sessionId: uint32, bound: uint32, n: nat): (ds: seq<seq<byte>>)
    requires bound + n < SEQUENCES
    ensures |ds| == n
  {
    if n == 0 then []
    else FillerRun(sessionId, bound, n - 1) + [HeaderBytes(FillerHeader(sessionId, bound + n, n)) + []]
  }

  lemma FillerAdmitted(p: Primitives, sessionId: uint32, id: uint32, number: uint32)
    ensures Admit(p, Plain, HeaderBytes(FillerHeader(sessionId, id, number)) + [])
         == Some(Admitted(FillerHeader(sessionId, id, number), []))
  {
    var h := FillerHeader(sessionId, id, number);
    HeaderRoundTrip(h, []);
    hide HeaderBytes, ParseHeader;
    assert (HeaderBytes(h) + [])[HEADER_SIZE..HEADER_SIZE + h.payloadLength] == [];
  }

  lemma {:induction false} FillerRunAt(p: Primitives, sessionId: uint32, bound: uint32, n: nat, i: nat)
    requires bound + n < SEQUENCES && i < n
    ensures Admit(p, Plain, FillerRun(sessionId, bound, n)[i])
         == Some(Admitted(FillerHeader(sessionId, bound + i + 1, i + 1), []))
  {
    hide HeaderBytes, Admit;
    if i < n - 1 {
      FillerRunAt(p, sessionId, bound, n - 1, i);
    } else {
      FillerAdmitted(p, sessionId, bound + n, n);
    }
  }

  /** Bare headers will do, for every bound that leaves room for the ids. */
  lemma FillersExist(p: Primitives, sessionId: uint32, bound: uint32, n: nat)
    requires bound + n < SEQUENCES
    ensures Fillers(p, FillerRun(sessionId, bound, n), sessionId, bound)
  {
    hide HeaderBytes, Admit, FillerRun;
    forall i | 0 <= i < n
      ensures Admit(p, Plain, FillerRun(sessionId, bound, n)[i])
           == Some(Admitted(FillerHeader(sessionId, bound + i + 1, i + 1), []))
    {
      FillerRunAt(p, sessionId, bound, n, i);
    }
  }

  /** With all sixteen places taken by newer frames, no frame of several fragments ever comes out. */
  lemma FullIsCrowded(f: VideoFrame, s: State)
    requires |s.pending| >= MAX_PENDING && forall id :: id in s.pending ==> id > f.frameId
    ensures Crowded(f, s)
  {
    NewerIsAll(s.pending, f.frameId);
  }

  /**
    A receiver that waits for a keyframe, with all places taken by newer frames: if every keyframe of the stream has
    several fragments, nothing comes out on any run of genuine datagrams.
  */
  lemma FullReceiverStarves(p: Primitives, sessionId: uint32, tx: Arming, rx: Arming, frames: seq<VideoFrame>,
                            sequence: uint32, s: State, accepted: set<uint32>, ds: seq<seq<byte>>)
    requires p.Laws() && Compatible(tx, rx) && SendableStream(tx, frames)
    requires OnlyGenuineAdmitted(p, rx, Sent(p, sessionId, tx, frames, sequence), ds)
    requires Receiving(sessionId, s, accepted) && s.waiting && |s.pending| >= MAX_PENDING
    requires forall id, k :: id in s.pending && 0 <= k < |frames| ==> id > frames[k].frameId
    requires forall k :: 0 <= k < |frames| && frames[k].isKeyframe ==> Count(tx, frames[k]) > 1
    ensures Run(p, rx, s, ds).frames == []
  {
    hide Run, OnlyGenuineAdmitted, Sent, SendableStream, Compatible, Partial, Filter.Remembers, Count, Ordered, Crowded;
    assert PendingGenuine(tx, frames, s);
    RunGenuine(p, sessionId, tx, rx, frames, sequence, s, ds);
    GenuineIsFromStream(p, sessionId, tx, rx, frames, sequence, ds);
    RunStartsWithKeyframe(p, rx, s, ds);
    var emitted := Run(p, rx, s, ds).frames;
    if emitted != [] {
      assert emitted[0] in frames;
      var k :| 0 <= k < |frames| && frames[k] == emitted[0];
      FullIsCrowded(frames[k], s);
      hide Inv, Receiving, AllFromStream;
      NeverOnceCrowded(p, sessionId, tx, rx, frames, k, s, accepted, ds);
    }
  }

  // ---- An earlier stream ----

  /** Frames numbered up to the last emitted one are not seen again, on any run of genuine datagrams. */
  lemma OlderStreamUnseen(p: Primitives, sessionId: uint32, tx: Arming, rx: Arming, frames: seq<VideoFrame>,
                          sequence: uint32, s: State, ds: seq<seq<byte>>)
    requires p.Laws() && Compatible(tx, rx) && SendableStream(tx, frames)
    requires OnlyGenuineAdmitted(p, rx, Sent(p, sessionId, tx, frames, sequence), ds)
    requires PendingGenuine(tx, frames, s) && Ordered(s) && !s.waiting && Numbered(s.lastEmitted)
    ensures forall g :: g in Run(p, rx, s, ds).frames ==> g in frames && g.frameId > s.lastEmitted
  {
    hide Run, OnlyGenuineAdmitted, Sent, SendableStream, Compatible, PendingGenuine, Ordered;
    RunGenuine(p, sessionId, tx, rx, frames, sequence, s, ds);
    FramesIncrease(p, rx, s, ds);
  }
}
