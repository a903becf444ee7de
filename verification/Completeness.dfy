/**
  Completeness: what a delivery without loss makes of a receiver in any state. A frame all of whose packets arrive
  comes out exactly when the receiver is open for it and has room for it, and no packet of it comes 64 or more
  numbers late.
*/
module Completeness {
  import opened Wrappers
  import opened Bytes
  import opened Crypto
  import Filter = ReplayFilter
  import opened Packetizer
  import opened Reassembler
  import opened ReassemblerInvariants
  import opened Integrity
  import opened Survival
  import opened Sequences

  /** Both ends unkeyed, or both holding the keys of one exchange. */
  ghost predicate Working(tx: Arming, rx: Arming) {
    || (tx.Plain? && rx.Plain?)
    || (tx.Armed? && tx.keys.Some? && rx.Armed? && rx.keys.Some? && Mirrored(tx.keys.value, rx.keys.value))
  }

  // ---- Arrival orders within a frame ----

  /** No packet is overtaken by one numbered 64 or more above it. */
  ghost predicate WithinWindow(order: seq<uint16>) {
    forall j, k :: 0 <= j < k < |order| ==> order[j] < order[k] + Filter.WINDOW
  }

  /** The same for the packets whose fragments are not held already. */
  ghost predicate InWindow(order: seq<uint16>, held: set<uint16>) {
    forall j, k :: 0 <= j < k < |order| && order[k] !in held ==> order[j] < order[k] + Filter.WINDOW
  }

  ghost predicate IsPermutation(order: seq<uint16>, n: nat) {
    && |order| == n
    && (forall i :: 0 <= i < n ==> order[i] < n)
    && (forall i, j :: 0 <= i < j < n ==> order[i] != order[j])
  }

  /** Any order will do for a frame of at most 64 fragments. */
  lemma SmallFrameAnyOrder(order: seq<uint16>, n: nat)
    requires IsPermutation(order, n) && n <= Filter.WINDOW
    ensures WithinWindow(order)
  {
  }

  /** Send order will do for any frame. */
  lemma SendOrderAnySize(order: seq<uint16>)
    requires forall i :: 0 <= i < |order| ==> order[i] == i
    ensures IsPermutation(order, |order|) && WithinWindow(order)
  {
  }

  function Shuffled(packets: seq<seq<byte>>, order: seq<uint16>): (ds: seq<seq<byte>>)
    requires forall i :: 0 <= i < |order| ==> order[i] < |packets|
  {
    if order == [] then [] else [packets[order[0]]] + Shuffled(packets, order[1..])
  }

  /** Room among the pending frames: a frame of one fragment needs none. */
  ghost predicate Room(tx: Arming, f: VideoFrame, s: State) {
    Count(tx, f) == 1 || !Crowded(f, s)
  }

  // ---- The packets of one frame ----

  lemma {:induction false} NextWithoutWrap(sequence: uint32, n: nat)
    requires sequence + n < SEQUENCES
    ensures Next(sequence, n) == sequence + n
    decreases n
  {
    if n != 0 { NextWithoutWrap(sequence, n - 1); }
  }

  /** The receiver admits this packet as fragment i of f, under this number. */
  ghost predicate AdmittedAs(p: Primitives, sessionId: uint32, tx: Arming, rx: Arming, f: VideoFrame, number: nat,
                             packet: seq<byte>, i: nat)
  {
    && Admit(p, rx, packet).Some?
    && var a := Admit(p, rx, packet).value;
       IsFragment(tx, f, a) && a.header.sessionId == sessionId && a.header.sequence == number
       && a.header.fragmentIndex == i
  }

  ghost predicate AllAdmitted(p: Primitives, sessionId: uint32, tx: Arming, rx: Arming, f: VideoFrame,
                              sequence: uint32, packets: seq<seq<byte>>)
  {
    && |packets| == Count(tx, f)
    && forall i :: 0 <= i < |packets| ==> AdmittedAs(p, sessionId, tx, rx, f, sequence + i, packets[i], i)
  }

  /** Packet i of a batch is admitted as fragment i, under the number that the counter had reached. */
  lemma BatchAdmitted(p: Primitives, sessionId: uint32, tx: Arming, rx: Arming, f: VideoFrame, sequence: uint32)
    requires p.Laws() && Working(tx, rx) && SealsAll(p, sessionId, tx, f, sequence)
    ensures var packets := FrameBatch(p, sessionId, tx, f, sequence).packets;
      && |packets| == Count(tx, f)
      && forall i :: 0 <= i < |packets| ==>
           AdmittedAs(p, sessionId, tx, rx, f, Next(sequence, i), packets[i], i)
  {
    hide Admit, FragmentPacket, IsFragment, FragmentCount, Next;
    FullBatch(p, sessionId, tx, f, sequence, Count(tx, f));
    var packets := FrameBatch(p, sessionId, tx, f, sequence).packets;
    forall i | 0 <= i < |packets| ensures AdmittedAs(p, sessionId, tx, rx, f, Next(sequence, i), packets[i], i) {
      FragmentAdmitted(p, sessionId, tx, rx, f, i, Next(sequence, i));
    }
  }

  lemma SentAllAdmitted(p: Primitives, sessionId: uint32, tx: Arming, rx: Arming, f: VideoFrame, sequence: uint32)
    requires p.Laws() && Working(tx, rx)
    requires SealsAll(p, sessionId, tx, f, sequence) && sequence + Count(tx, f) <= SEQUENCES
    ensures AllAdmitted(p, sessionId, tx, rx, f, sequence, FrameBatch(p, sessionId, tx, f, sequence).packets)
  {
    hide AdmittedAs, FrameBatch, Count, SealsAll, Working;
    BatchAdmitted(p, sessionId, tx, rx, f, sequence);
    var packets := FrameBatch(p, sessionId, tx, f, sequence).packets;
    forall i | 0 <= i < |packets| ensures AdmittedAs(p, sessionId, tx, rx, f, sequence + i, packets[i], i) {
      NextWithoutWrap(sequence, i);
    }
  }

  /** These datagrams are the frame's fragments in this order. */
  ghost predicate Delivers(p: Primitives, sessionId: uint32, tx: Arming, rx: Arming, f: VideoFrame, sequence: uint32,
                           ds: seq<seq<byte>>, order: seq<uint16>)
  {
    && |ds| == |order|
    && forall q :: 0 <= q < |order| ==>
         order[q] < Count(tx, f) && AdmittedAs(p, sessionId, tx, rx, f, sequence + order[q], ds[q], order[q])
  }

  lemma {:induction false} ShuffledDelivers(p: Primitives, sessionId: uint32, tx: Arming, rx: Arming, f: VideoFrame,
                                            sequence: uint32, packets: seq<seq<byte>>, order: seq<uint16>)
    requires AllAdmitted(p, sessionId, tx, rx, f, sequence, packets)
    requires forall i :: 0 <= i < |order| ==> order[i] < Count(tx, f)
    ensures Delivers(p, sessionId, tx, rx, f, sequence, Shuffled(packets, order), order)
    decreases |order|
  {
    hide AdmittedAs, Count;
    if order != [] {
      var tail := order[1..];
      ShuffledDelivers(p, sessionId, tx, rx, f, sequence, packets, tail);
      var ds := Shuffled(packets, order);
      forall q | 0 <= q < |order|
        ensures AdmittedAs(p, sessionId, tx, rx, f, sequence + order[q], ds[q], order[q])
      {
        if q > 0 { assert ds[q] == Shuffled(packets, tail)[q - 1] && order[q] == tail[q - 1]; }
      }
    }
  }

  lemma SingleStream(tx: Arming, f: VideoFrame)
    requires Sendable(tx, f)
    ensures SendableStream(tx, [f])
  {
    hide Sendable;
  }

  lemma OnlyThisFrame(p: Primitives, sessionId: uint32, tx: Arming, rx: Arming, f: VideoFrame, sequence: uint32,
                      ds: seq<seq<byte>>, order: seq<uint16>)
    requires Sendable(tx, f) && Delivers(p, sessionId, tx, rx, f, sequence, ds, order)
    ensures SendableStream(tx, [f]) && AllFromStream(p, sessionId, tx, rx, [f], ds)
  {
    hide Admit, IsFragment, Sendable, Count, SendableStream, FromStream;
    SingleStream(tx, f);
    forall q | 0 <= q < |ds| ensures FromStream(p, sessionId, tx, rx, [f], ds[q]) {
      AdmittedFromStream(p, sessionId, tx, rx, f, sequence + order[q], ds[q], order[q]);
    }
  }

  lemma AdmittedFromStream(p: Primitives, sessionId: uint32, tx: Arming, rx: Arming, f: VideoFrame, number: nat,
                           d: seq<byte>, i: nat)
    requires AdmittedAs(p, sessionId, tx, rx, f, number, d, i)
    ensures FromStream(p, sessionId, tx, rx, [f], d)
  {
    hide Admit, IsFragment, FromStream, Count;
    FragmentFromStream(p, sessionId, tx, rx, [f], 0, d);
  }

  // ---- A run on packets of one frame only ----

  lemma TrimmedKeepsNewer(frames: PendingFrames, id: uint32, newer: uint32)
    requires id in frames && newer > id
    ensures newer in Trimmed(frames) <==> newer in frames
    ensures newer in frames ==> Trimmed(frames)[newer] == frames[newer]
  {
  }

  lemma SameNewer(a: PendingFrames, b: PendingFrames, id: uint32)
    requires forall j :: j > id ==> (j in a <==> j in b) && (j in b ==> a[j] == b[j])
    ensures Newer(a, id) == Newer(b, id)
  {
  }

  lemma CollectKeepsNewer(s: State, a: Admitted)
    requires Entry(s.pending, a).frameId == a.header.frameId
    ensures Newer(Collect(s, a).state.pending, a.header.frameId) == Newer(s.pending, a.header.frameId)
  {
    hide Entry, Complete, Joined, Trimmed;
    var id, t := a.header.frameId, Collect(s, a).state;
    var stored := s.pending[id := Entry(s.pending, a)];
    forall j | j > id
      ensures (j in t.pending <==> j in s.pending) && (j in s.pending ==> t.pending[j] == s.pending[j])
    {
      if !Complete(Entry(s.pending, a)) { TrimmedKeepsNewer(stored, id, j); }
    }
    SameNewer(t.pending, s.pending, id);
  }

  lemma OnlyStep(p: Primitives, sessionId: uint32, tx: Arming, rx: Arming, f: VideoFrame, s: State,
                 accepted: set<uint32>, d: seq<byte>)
    requires SendableStream(tx, [f]) && FromStream(p, sessionId, tx, rx, [f], d) && Receiving(sessionId, s, accepted)
    ensures var o := Push(p, rx, s, d);
      && (o.effects.frame.Some? ==> o.effects.frame.value.frameId == f.frameId)
      && Newer(o.state.pending, f.frameId) == Newer(s.pending, f.frameId)
  {
    hide Admit, Collect, Entry, Filter.Step, Stale, SendableStream, FragmentOfSome, Ordered, Inv, Newer;
    hide Filter.Remembers;
    PushAnnounces(p, sessionId, tx, rx, [f], s, d);
    if Admit(p, rx, d).Some? {
      var m := AnnouncedFrame(p, sessionId, tx, rx, [f], d);
      assert [f][m] == f;
      EntryIdNumbered(tx, [f], s, Admit(p, rx, d).value);
      CollectKeepsNewer(Noted(s, Admit(p, rx, d).value), Admit(p, rx, d).value);
    }
  }

  /** The numbers accepted after these datagrams. */
  ghost function AcceptedOver(p: Primitives, rx: Arming, accepted: set<uint32>, ds: seq<seq<byte>>): set<uint32>
    decreases |ds|
  {
    if ds == [] then accepted else AcceptedOver(p, rx, AcceptedWith(p, rx, accepted, ds[0]), ds[1..])
  }

  /** Nothing but this frame comes out; until it does, gate and order stay as they were; newer frames are untouched. */
  ghost predicate Alone(f: VideoFrame, s: State, r: Trace) {
    && (forall g :: g in r.frames ==> g.frameId == f.frameId)
    && (if r.frames == [] then r.state.waiting == s.waiting && r.state.lastEmitted == s.lastEmitted
        else !r.state.waiting && r.state.lastEmitted == f.frameId)
    && Newer(r.state.pending, f.frameId) == Newer(s.pending, f.frameId)
  }

  lemma {:induction false} RunAlone(p: Primitives, sessionId: uint32, tx: Arming, rx: Arming, f: VideoFrame, s: State,
                                    accepted: set<uint32>, ds: seq<seq<byte>>)
    requires SendableStream(tx, [f]) && AllFromStream(p, sessionId, tx, rx, [f], ds)
    requires Receiving(sessionId, s, accepted)
    ensures Alone(f, s, Run(p, rx, s, ds))
    ensures Receiving(sessionId, Run(p, rx, s, ds).state, AcceptedOver(p, rx, accepted, ds))
    decreases |ds|
  {
    hide Push, SendableStream, AllFromStream, FromStream, Receiving, Newer, AcceptedWith, Numbered;
    if ds != [] {
      var o := Push(p, rx, s, ds[0]);
      TailFromStream(p, sessionId, tx, rx, [f], ds);
      OnlyStep(p, sessionId, tx, rx, f, s, accepted, ds[0]);
      PushReceiving(p, sessionId, tx, rx, [f], s, accepted, ds[0]);
      RunAlone(p, sessionId, tx, rx, f, o.state, AcceptedWith(p, rx, accepted, ds[0]), ds[1..]);
    }
  }

  lemma AtMostOnce(p: Primitives, sessionId: uint32, tx: Arming, rx: Arming, f: VideoFrame, s: State,
                   accepted: set<uint32>, ds: seq<seq<byte>>)
    requires SendableStream(tx, [f]) && AllFromStream(p, sessionId, tx, rx, [f], ds)
    requires Receiving(sessionId, s, accepted)
    ensures |Run(p, rx, s, ds).frames| <= 1
  {
    hide Run, Admit, Ordered, SendableStream, FragmentOfSome, Numbered, Inv, Filter.Remembers, Newer;
    RunAlone(p, sessionId, tx, rx, f, s, accepted, ds);
    forall i | 0 <= i < |ds| ensures AdmittedIdsNumbered(p, rx, ds[i]) {
      assert FromStream(p, sessionId, tx, rx, [f], ds[i]);
      if Admit(p, rx, ds[i]).Some? { FragmentNumbered(tx, [f], Admit(p, rx, ds[i]).value); }
    }
    FramesIncrease(p, rx, s, ds);
    FirstTwo(Run(p, rx, s, ds).frames);
  }

  lemma FirstTwo<T>(s: seq<T>)
    ensures |s| > 1 ==> s[0] in s && s[1] in s
  {
  }

  /** With room at the start there is room throughout, and nothing else disturbs the frame. */
  lemma {:induction false} RoomIsUndisturbed(p: Primitives, sessionId: uint32, tx: Arming, rx: Arming, f: VideoFrame,
                                             s: State, accepted: set<uint32>, ds: seq<seq<byte>>)
    requires SendableStream(tx, [f]) && AllFromStream(p, sessionId, tx, rx, [f], ds)
    requires Receiving(sessionId, s, accepted) && Room(tx, f, s)
    ensures Undisturbed(p, tx, rx, f, s, ds)
    decreases |ds|
  {
    hide Push, SendableStream, AllFromStream, FromStream, Receiving, Newer, AcceptedWith, Count;
    if ds != [] {
      TailFromStream(p, sessionId, tx, rx, [f], ds);
      OnlyStep(p, sessionId, tx, rx, f, s, accepted, ds[0]);
      PushReceiving(p, sessionId, tx, rx, [f], s, accepted, ds[0]);
      RoomIsUndisturbed(p, sessionId, tx, rx, f, Push(p, rx, s, ds[0]).state, AcceptedWith(p, rx, accepted, ds[0]),
                        ds[1..]);
    }
  }

  // ---- What it takes to be due ----

  lemma DeliversAt(p: Primitives, sessionId: uint32, tx: Arming, rx: Arming, f: VideoFrame, sequence: uint32,
                   ds: seq<seq<byte>>, order: seq<uint16>, q: nat)
    requires Delivers(p, sessionId, tx, rx, f, sequence, ds, order) && q < |ds|
    ensures Admit(p, rx, ds[q]).Some? && Number(p, rx, ds[q]) == sequence + order[q] && order[q] < Count(tx, f)
    ensures forall j :: Brings(p, rx, ds[q], f.frameId, j) <==> j == order[q]
  {
    hide Admit, Count;
    assert AdmittedAs(p, sessionId, tx, rx, f, sequence + order[q], ds[q], order[q]);
  }

  /** Until a missing fragment has arrived, the receiver is as open for the frame as it was. */
  lemma StaysOpen(p: Primitives, sessionId: uint32, tx: Arming, rx: Arming, f: VideoFrame,
                  held: map<uint16, seq<byte>>, sequence: uint32, ds: seq<seq<byte>>, order: seq<uint16>, s: State,
                  accepted: set<uint32>, i: nat)
    requires Sendable(tx, f) && Delivers(p, sessionId, tx, rx, f, sequence, ds, order) && i < |ds|
    requires IsPermutation(order, Count(tx, f)) && order[i] !in Held(s.pending, f.frameId)
    requires Receiving(sessionId, s, accepted) && Growing(tx, f, held, s.pending)
    ensures Open(f, Run(p, rx, s, ds[..i]).state) <==> Open(f, s)
  {
    hide Receiving, Growing, Run, Undisturbed, SendableStream, Count, Held, AdmittedAs, Brings, Sendable;
    var before := ds[..i];
    OnlyThisFrame(p, sessionId, tx, rx, f, sequence, ds, order);
    assert AllFromStream(p, sessionId, tx, rx, [f], before) by { hide FromStream; }
    RunAlone(p, sessionId, tx, rx, f, s, accepted, before);
    EmittedFrom(p, sessionId, tx, rx, [f], 0, held, s, accepted, before);
    var frames := Run(p, rx, s, before).frames;
    if frames != [] {
      assert frames[0] in frames;
      assert Emits(frames, f.frameId);
      var h: nat :| ArrivesAt(p, rx, f, s, accepted, before, order[i], h);
      assert before[h] == ds[h];
      DeliversAt(p, sessionId, tx, rx, f, sequence, ds, order, h);
    }
  }

  lemma FragmentArrivesIff(p: Primitives, sessionId: uint32, tx: Arming, rx: Arming, f: VideoFrame,
                           held: map<uint16, seq<byte>>, sequence: uint32, ds: seq<seq<byte>>, order: seq<uint16>,
                           s: State, accepted: set<uint32>, q: nat)
    requires Sendable(tx, f) && Delivers(p, sessionId, tx, rx, f, sequence, ds, order) && q < |ds|
    requires IsPermutation(order, Count(tx, f)) && order[q] !in Held(s.pending, f.frameId)
    requires Receiving(sessionId, s, accepted) && Growing(tx, f, held, s.pending)
    requires forall x :: x in accepted ==> x < sequence
    ensures Arrives(p, rx, f, s, accepted, ds, order[q]) <==>
      Open(f, s) && forall h :: 0 <= h < q ==> order[h] < order[q] + Filter.WINDOW
  {
    hide Receiving, Growing, Run, Count, Held, Sendable, Admit, Open, AdmittedAs, Brings;
    StaysOpen(p, sessionId, tx, rx, f, held, sequence, ds, order, s, accepted, q);
    forall h | 0 <= h <= q
      ensures Admit(p, rx, ds[h]).Some? && Number(p, rx, ds[h]) == sequence + order[h]
    {
      DeliversAt(p, sessionId, tx, rx, f, sequence, ds, order, h);
    }
    DeliversAt(p, sessionId, tx, rx, f, sequence, ds, order, q);
    if i: nat :| ArrivesAt(p, rx, f, s, accepted, ds, order[q], i) {
      DeliversAt(p, sessionId, tx, rx, f, sequence, ds, order, i);
      assert i == q;
      forall h | 0 <= h < q ensures order[h] < order[q] + Filter.WINDOW {
        assert Earlier(p, rx, Number(p, rx, ds[q]), ds[h]);
      }
    }
    if Open(f, s) && forall h :: 0 <= h < q ==> order[h] < order[q] + Filter.WINDOW {
      assert ArrivesAt(p, rx, f, s, accepted, ds, order[q], q);
    }
  }

  /** All fragments are due exactly when the receiver is open for the frame and the missing ones come in the window. */
  lemma DueIff(p: Primitives, sessionId: uint32, tx: Arming, rx: Arming, f: VideoFrame, held: map<uint16, seq<byte>>,
               sequence: uint32, ds: seq<seq<byte>>, order: seq<uint16>, s: State, accepted: set<uint32>)
    requires Sendable(tx, f) && Delivers(p, sessionId, tx, rx, f, sequence, ds, order)
    requires IsPermutation(order, Count(tx, f))
    requires Receiving(sessionId, s, accepted) && Growing(tx, f, held, s.pending)
    requires forall x :: x in accepted ==> x < sequence
    ensures Due(p, tx, rx, f, s, accepted, ds) <==>
      Open(f, s) && InWindow(order, Held(s.pending, f.frameId).Keys)
  {
    hide Receiving, Growing, Count, Held, Sendable, Open, Delivers, Arrives;
    var got := Held(s.pending, f.frameId);
    forall q | 0 <= q < |order| && order[q] !in got
      ensures Arrives(p, rx, f, s, accepted, ds, order[q]) <==>
        Open(f, s) && forall h :: 0 <= h < q ==> order[h] < order[q] + Filter.WINDOW
    {
      SameLength(p, sessionId, tx, rx, f, sequence, ds, order);
      FragmentArrivesIff(p, sessionId, tx, rx, f, held, sequence, ds, order, s, accepted, q);
    }
    if Due(p, tx, rx, f, s, accepted, ds) {
      var missing := SomeMissing(tx, f, held, s.pending);
      var at := PlaceOf(order, Count(tx, f), missing);
    }
    if Open(f, s) && InWindow(order, got.Keys) {
      forall j: uint16 | j < Count(tx, f) ensures j in got || Arrives(p, rx, f, s, accepted, ds, j) {
        var q := PlaceOf(order, Count(tx, f), j);
      }
    }
  }

  lemma SameLength(p: Primitives, sessionId: uint32, tx: Arming, rx: Arming, f: VideoFrame, sequence: uint32,
                   ds: seq<seq<byte>>, order: seq<uint16>)
    requires Delivers(p, sessionId, tx, rx, f, sequence, ds, order)
    ensures |ds| == |order|
  {
  }

  function Indices(order: seq<uint16>): set<uint16> {
    if order == [] then {} else Indices(order[..|order| - 1]) + {order[|order| - 1]}
  }

  lemma {:induction false} IndicesMembers(order: seq<uint16>, x: uint16)
    ensures x in Indices(order) <==> x in order
  {
    if order != [] {
      var front := order[..|order| - 1];
      IndicesMembers(front, x);
      assert order == front + [order[|order| - 1]];
    }
  }

  lemma {:induction false} IndicesSize(order: seq<uint16>)
    requires forall i, j :: 0 <= i < j < |order| ==> order[i] != order[j]
    ensures |Indices(order)| == |order|
  {
    if order != [] {
      var front := order[..|order| - 1];
      IndicesSize(front);
      IndicesMembers(front, order[|order| - 1]);
    }
  }

  /** Pigeonhole: n different indices below n are all of them. */
  lemma PlaceOf(order: seq<uint16>, n: uint16, j: uint16) returns (q: nat)
    requires IsPermutation(order, n) && j < n
    ensures q < |order| && order[q] == j
  {
    IndicesSize(order);
    forall x | x in Indices(order) ensures x < n {
      IndicesMembers(order, x);
    }
    IndicesBelow(Indices(order), n);
    IndicesMembers(order, j);
    q :| 0 <= q < |order| && order[q] == j;
  }

  // ---- One frame ----

  lemma RunOfOne(p: Primitives, sessionId: uint32, tx: Arming, rx: Arming, f: VideoFrame,
                 held: map<uint16, seq<byte>>, sequence: uint32, ds: seq<seq<byte>>, order: seq<uint16>, s: State,
                 accepted: set<uint32>)
    requires Sendable(tx, f) && Delivers(p, sessionId, tx, rx, f, sequence, ds, order)
    requires IsPermutation(order, Count(tx, f))
    requires Receiving(sessionId, s, accepted) && Growing(tx, f, held, s.pending)
    requires forall x :: x in accepted ==> x < sequence
    ensures Run(p, rx, s, ds).frames ==
      if Open(f, s) && Room(tx, f, s) && InWindow(order, Held(s.pending, f.frameId).Keys)
      then [Resulting(tx, f, held)] else []
  {
    hide Receiving, Growing, Count, Held, Open, Delivers, Arrives, Due, Undisturbed, Run, IsPermutation;
    hide Crowded, Resulting, InWindow, SendableStream;
    DueIff(p, sessionId, tx, rx, f, held, sequence, ds, order, s, accepted);
    OnlyThisFrame(p, sessionId, tx, rx, f, sequence, ds, order);
    CountPositive(tx, f);
    hide Sendable, AllFromStream;
    var frames := Run(p, rx, s, ds).frames;
    RunAlone(p, sessionId, tx, rx, f, s, accepted, ds);
    AtMostOnce(p, sessionId, tx, rx, f, s, accepted, ds);
    EmittedFrom(p, sessionId, tx, rx, [f], 0, held, s, accepted, ds);
    assert [f][0] == f;
    if Room(tx, f, s) {
      RoomIsUndisturbed(p, sessionId, tx, rx, f, s, accepted, ds);
    } else {
      NeverOnceCrowded(p, sessionId, tx, rx, [f], 0, s, accepted, ds);
    }
    EmitsOrNothing(frames, f.frameId);
    if frames != [] { assert frames[0] in frames; }
  }

  lemma EmitsOrNothing(frames: seq<VideoFrame>, id: uint32)
    requires forall g :: g in frames ==> g.frameId == id
    ensures Emits(frames, id) <==> frames != []
  {
    if frames != [] { assert frames[0] in frames; }
  }

  /**
    One sealed frame, all its packets delivered in some order to a receiver in any state: it comes out exactly when
    the receiver is open for it and has room for it, and no missing packet was overtaken by one numbered 64 or more
    above it.
  */
  lemma FrameEmittedIffWithinWindow(p: Primitives, sessionId: uint32, tx: Arming, rx: Arming, f: VideoFrame,
                                    sequence: uint32, order: seq<uint16>, s: State, accepted: set<uint32>)
    requires p.Laws() && Working(tx, rx) && Sendable(tx, f)
    requires SealsAll(p, sessionId, tx, f, sequence) && sequence + Count(tx, f) <= SEQUENCES
    requires IsPermutation(order, Count(tx, f))
    requires Receiving(sessionId, s, accepted) && HeldShaped(tx, f, s)
    requires forall x :: x in accepted ==> x < sequence
    ensures |FrameBatch(p, sessionId, tx, f, sequence).packets| == Count(tx, f)
    ensures forall i :: 0 <= i < |order| ==> order[i] < Count(tx, f)
    ensures Run(p, rx, s, Shuffled(FrameBatch(p, sessionId, tx, f, sequence).packets, order)).frames ==
      if Open(f, s) && Room(tx, f, s) && InWindow(order, Held(s.pending, f.frameId).Keys)
      then [Resulting(tx, f, Held(s.pending, f.frameId))] else []
  {
    hide Run, Shuffled, SealsAll, FrameBatch, Working, Receiving, Growing, AdmittedAs, Delivers, Sendable, Open, Room;
    hide Count, InWindow, Resulting, Held;
    SentAllAdmitted(p, sessionId, tx, rx, f, sequence);
    var packets := FrameBatch(p, sessionId, tx, f, sequence).packets;
    ShuffledDelivers(p, sessionId, tx, rx, f, sequence, packets, order);
    var ds := Shuffled(packets, order);
    RunOfOne(p, sessionId, tx, rx, f, Held(s.pending, f.frameId), sequence, ds, order, s, accepted);
  }

  // ---- Missing-keyframe callbacks ----

  function Copies(id: uint32, n: nat): (r: seq<uint32>)
    ensures |r| == n
    decreases n, id
  {
    if n == 0 then [] else [id] + Copies(id, n - 1)
  }

  /** Each packet is fresh when its turn comes. */
  ghost predicate AllFresh(accepted: set<uint32>, sequence: uint32, order: seq<uint16>) {
    forall q :: 0 <= q < |order| ==>
      && sequence + order[q] < SEQUENCES && Filter.Fresh(accepted, sequence + order[q])
      && forall h :: 0 <= h < q ==> order[h] != order[q] && order[h] < order[q] + Filter.WINDOW
  }

  lemma FreshTail(p: Primitives, rx: Arming, accepted: set<uint32>, sequence: uint32, order: seq<uint16>, d: seq<byte>)
    requires AllFresh(accepted, sequence, order) && order != []
    requires Admit(p, rx, d).Some? && Number(p, rx, d) == sequence + order[0]
    ensures AllFresh(AcceptedWith(p, rx, accepted, d), sequence, order[1..])
  {
    hide Admit, Filter.Fresh, AcceptedWith;
    var tail := order[1..];
    forall q | 0 <= q < |tail|
      ensures sequence + tail[q] < SEQUENCES && Filter.Fresh(AcceptedWith(p, rx, accepted, d), sequence + tail[q])
      ensures forall h :: 0 <= h < q ==> tail[h] != tail[q] && tail[h] < tail[q] + Filter.WINDOW
    {
      assert tail[q] == order[q + 1];
      FreshStep(p, rx, accepted, d, sequence + tail[q]);
      forall h | 0 <= h < q ensures tail[h] != tail[q] && tail[h] < tail[q] + Filter.WINDOW {
        assert tail[h] == order[h + 1];
      }
    }
  }

  lemma CollectIsQuiet(s: State, a: Admitted)
    ensures Collect(s, a).effects.missingKeyframe == None
    ensures !s.waiting ==> !Collect(s, a).state.waiting
  {
    hide Entry, Complete, FrameOf, Newer, Trimmed;
  }

  /** A fresh packet is complained about exactly while a keyframe is waited for, and then changes nothing else. */
  lemma PushComplains(p: Primitives, sessionId: uint32, tx: Arming, rx: Arming, f: VideoFrame, number: uint32,
                      s: State, accepted: set<uint32>, d: seq<byte>, i: uint16)
    requires AdmittedAs(p, sessionId, tx, rx, f, number, d, i) && Receiving(sessionId, s, accepted)
    requires Filter.Fresh(accepted, number)
    ensures var o := Push(p, rx, s, d);
      && o.effects.missingKeyframe == (if s.waiting && !f.isKeyframe then Some(f.frameId) else None)
      && (o.state.waiting && !f.isKeyframe <==> s.waiting && !f.isKeyframe)
  {
    hide Admit, Collect, Ordered, Inv, Filter.Remembers, Filter.Fresh, Receive, Stale, Count;
    var a := Admit(p, rx, d).value;
    ReceiveCases(s, a, accepted);
    CollectIsQuiet(Noted(s, a), a);
    KeyframeAsSent(tx, f, a);
    PushKeepsWaiting(s, a, accepted);
  }

  lemma KeyframeAsSent(tx: Arming, f: VideoFrame, a: Admitted)
    requires IsFragment(tx, f, a)
    ensures a.header.frameId == f.frameId && (a.header.IsKeyframe() <==> f.isKeyframe)
  {
  }

  lemma PushKeepsWaiting(s: State, a: Admitted, accepted: set<uint32>)
    requires Filter.Remembers(s.replay, accepted) && (s.sessionLocked ==> s.expectedSession == a.header.sessionId)
    ensures s.waiting && !a.header.IsKeyframe() ==> Receive(s, a).state.waiting
    ensures !s.waiting ==> !Receive(s, a).state.waiting
  {
    hide Collect, Filter.Remembers, Filter.Fresh, Receive, Stale;
    ReceiveCases(s, a, accepted);
    CollectIsQuiet(Noted(s, a), a);
  }

  lemma {:induction false} MissingOfOne(p: Primitives, sessionId: uint32, tx: Arming, rx: Arming, f: VideoFrame,
                                        sequence: uint32, ds: seq<seq<byte>>, order: seq<uint16>, s: State,
                                        accepted: set<uint32>)
    requires Sendable(tx, f) && Delivers(p, sessionId, tx, rx, f, sequence, ds, order)
    requires AllFresh(accepted, sequence, order) && Receiving(sessionId, s, accepted)
    ensures Run(p, rx, s, ds).missing == if s.waiting && !f.isKeyframe then Copies(f.frameId, |order|) else []
    decreases |ds|
  {
    hide Push, Receiving, AcceptedWith, Count, Sendable, AdmittedAs, Filter.Fresh;
    if ds != [] {
      var o := Push(p, rx, s, ds[0]);
      assert AdmittedAs(p, sessionId, tx, rx, f, sequence + order[0], ds[0], order[0]);
      PushComplains(p, sessionId, tx, rx, f, sequence + order[0], s, accepted, ds[0], order[0]);
      DeliversAt(p, sessionId, tx, rx, f, sequence, ds, order, 0);
      FreshTail(p, rx, accepted, sequence, order, ds[0]);
      OnlyThisFrame(p, sessionId, tx, rx, f, sequence, ds, order);
      TailFromStream(p, sessionId, tx, rx, [f], ds);
      PushReceiving(p, sessionId, tx, rx, [f], s, accepted, ds[0]);
      DeliversTail(p, sessionId, tx, rx, f, sequence, ds, order);
      hide Delivers, AllFresh, AllFromStream, FromStream;
      MissingOfOne(p, sessionId, tx, rx, f, sequence, ds[1..], order[1..], o.state,
                   AcceptedWith(p, rx, accepted, ds[0]));
    }
  }

  lemma DeliversTail(p: Primitives, sessionId: uint32, tx: Arming, rx: Arming, f: VideoFrame, sequence: uint32,
                     ds: seq<seq<byte>>, order: seq<uint16>)
    requires Delivers(p, sessionId, tx, rx, f, sequence, ds, order) && ds != []
    ensures order != [] && Delivers(p, sessionId, tx, rx, f, sequence, ds[1..], order[1..])
  {
    hide AdmittedAs, Count;
  }

  lemma TimelyIsFresh(accepted: set<uint32>, sequence: uint32, order: seq<uint16>, n: uint16)
    requires IsPermutation(order, n) && WithinWindow(order) && sequence + n <= SEQUENCES
    requires forall x :: x in accepted ==> x < sequence
    ensures AllFresh(accepted, sequence, order)
  {
  }

  // ---- The whole stream ----

  /** Nothing fails to seal. */
  ghost predicate AllSealed(p: Primitives, sessionId: uint32, tx: Arming, frames: seq<VideoFrame>, sequence: uint32)
    decreases |frames|
  {
    frames != [] ==>
      && SealsAll(p, sessionId, tx, frames[0], sequence)
      && AllSealed(p, sessionId, tx, frames[1..], Next(sequence, Count(tx, frames[0])))
  }

  /** How many packets the stream takes. */
  function Total(tx: Arming, frames: seq<VideoFrame>): nat {
    if frames == [] then 0 else Count(tx, frames[0]) + Total(tx, frames[1..])
  }

  /** One arrival order per frame: complete, and within the replay window. */
  ghost predicate Timely(tx: Arming, frames: seq<VideoFrame>, orders: seq<seq<uint16>>) {
    && |orders| == |frames|
    && forall k :: 0 <= k < |frames| ==> IsPermutation(orders[k], Count(tx, frames[k])) && WithinWindow(orders[k])
  }

  /** The datagrams of a lossless delivery: frame by frame, each in its own order. */
  ghost function Arrivals(p: Primitives, sessionId: uint32, tx: Arming, frames: seq<VideoFrame>, sequence: uint32,
                          orders: seq<seq<uint16>>): seq<seq<byte>>
    requires AllSealed(p, sessionId, tx, frames, sequence) && Timely(tx, frames, orders)
    decreases |frames|
  {
    if frames == [] then []
    else
      SentCount(p, sessionId, tx, frames[0], sequence);
      var b := FrameBatch(p, sessionId, tx, frames[0], sequence);
      Shuffled(b.packets, orders[0]) + Arrivals(p, sessionId, tx, frames[1..], b.sequence, orders[1..])
  }

  lemma SentCount(p: Primitives, sessionId: uint32, tx: Arming, f: VideoFrame, sequence: uint32)
    requires SealsAll(p, sessionId, tx, f, sequence)
    ensures var b := FrameBatch(p, sessionId, tx, f, sequence);
      |b.packets| == Count(tx, f) && b.sequence == Next(sequence, Count(tx, f))
  {
    hide FragmentPacket, FragmentCount, Next;
    FullBatch(p, sessionId, tx, f, sequence, Count(tx, f));
  }

  /** Gate and order once the packets of a frame have been delivered; what is pending matters to newer ones only. */
  ghost function After(tx: Arming, f: VideoFrame, s: State): State {
    if Open(f, s) && Room(tx, f, s) then s.(waiting := false, lastEmitted := f.frameId) else s
  }

  /** Of the frames delivered in this order to a receiver in this state, those that come out. */
  ghost function Delivered(tx: Arming, s: State, frames: seq<VideoFrame>): seq<VideoFrame>
    decreases |frames|
  {
    if frames == [] then []
    else (if Open(frames[0], s) && Room(tx, frames[0], s) then [frames[0]] else [])
         + Delivered(tx, After(tx, frames[0], s), frames[1..])
  }

  /** One complaint per packet of each frame that is not the keyframe waited for. */
  ghost function Complaints(tx: Arming, s: State, frames: seq<VideoFrame>): seq<uint32>
    decreases |frames|
  {
    if frames == [] then []
    else (if s.waiting && !frames[0].isKeyframe then Copies(frames[0].frameId, Count(tx, frames[0])) else [])
         + Complaints(tx, After(tx, frames[0], s), frames[1..])
  }

  /** Two states that newer frames cannot tell apart. */
  ghost predicate Alike(a: State, b: State, id: uint32) {
    a.waiting == b.waiting && a.lastEmitted == b.lastEmitted && Newer(a.pending, id) == Newer(b.pending, id)
  }

  lemma NewerNewer(frames: PendingFrames, id: uint32, later: uint32)
    requires id <= later
    ensures Newer(Newer(frames, id), later) == Newer(frames, later)
  {
  }

  lemma AlikeStep(tx: Arming, a: State, b: State, f: VideoFrame, id: uint32)
    requires Alike(a, b, id) && id < f.frameId
    ensures Open(f, a) == Open(f, b) && Room(tx, f, a) == Room(tx, f, b) && Alike(After(tx, f, a), After(tx, f, b), id)
  {
    hide Stale, Count, Newer;
    NewerNewer(a.pending, id, f.frameId);
    NewerNewer(b.pending, id, f.frameId);
  }

  lemma {:induction false} DeliveredAlike(tx: Arming, a: State, b: State, frames: seq<VideoFrame>, id: uint32)
    requires Alike(a, b, id) && forall k :: 0 <= k < |frames| ==> id < frames[k].frameId
    ensures Delivered(tx, a, frames) == Delivered(tx, b, frames)
    ensures Complaints(tx, a, frames) == Complaints(tx, b, frames)
    decreases |frames|
  {
    hide Open, Room, After, Copies, Count, Newer;
    if frames != [] {
      AlikeStep(tx, a, b, frames[0], id);
      DeliveredAlike(tx, After(tx, frames[0], a), After(tx, frames[0], b), frames[1..], id);
    }
  }

  lemma GenuineTail(tx: Arming, frames: seq<VideoFrame>, s: State, t: State)
    requires SendableStream(tx, frames) && frames != [] && PendingGenuine(tx, frames, s)
    requires Newer(t.pending, frames[0].frameId) == Newer(s.pending, frames[0].frameId)
    ensures PendingGenuine(tx, frames[1..], t)
  {
    hide Partial, Count, Sendable;
    forall k | 0 <= k < |frames[1..]| && frames[1..][k].frameId in t.pending
      ensures Partial(tx, frames[1..][k], t.pending[frames[1..][k].frameId])
      ensures |t.pending[frames[1..][k].frameId].fragments| < Count(tx, frames[1..][k])
    {
      var id := frames[k + 1].frameId;
      assert frames[1..][k] == frames[k + 1] && id > frames[0].frameId;
      assert id in Newer(t.pending, frames[0].frameId);
    }
  }

  lemma WindowHolds(order: seq<uint16>, held: set<uint16>)
    requires WithinWindow(order)
    ensures InWindow(order, held)
  {
  }

  lemma {:induction false} AcceptedOverMembers(p: Primitives, sessionId: uint32, tx: Arming, rx: Arming, f: VideoFrame,
                                               sequence: uint32, ds: seq<seq<byte>>, order: seq<uint16>,
                                               accepted: set<uint32>, bound: nat)
    requires Delivers(p, sessionId, tx, rx, f, sequence, ds, order) && sequence + Count(tx, f) <= bound
    requires forall x :: x in accepted ==> x < bound
    ensures forall x :: x in AcceptedOver(p, rx, accepted, ds) ==> x < bound
    decreases |ds|
  {
    hide Admit, Count, Filter.Fresh, Delivers;
    if ds != [] {
      SameLength(p, sessionId, tx, rx, f, sequence, ds, order);
      DeliversAt(p, sessionId, tx, rx, f, sequence, ds, order, 0);
      DeliversTail(p, sessionId, tx, rx, f, sequence, ds, order);
      AcceptedOverMembers(p, sessionId, tx, rx, f, sequence, ds[1..], order[1..],
                          AcceptedWith(p, rx, accepted, ds[0]), bound);
    }
  }

  /** The first frame of a stream, delivered to a receiver in any state. */
  lemma FirstDelivered(p: Primitives, sessionId: uint32, tx: Arming, rx: Arming, frames: seq<VideoFrame>,
                       sequence: uint32, order: seq<uint16>, s: State, accepted: set<uint32>)
    returns (now: set<uint32>)
    requires p.Laws() && Working(tx, rx) && SendableStream(tx, frames) && frames != []
    requires SealsAll(p, sessionId, tx, frames[0], sequence) && sequence + Count(tx, frames[0]) <= SEQUENCES
    requires IsPermutation(order, Count(tx, frames[0])) && WithinWindow(order)
    requires Receiving(sessionId, s, accepted) && PendingGenuine(tx, frames, s)
    requires forall x :: x in accepted ==> x < sequence
    ensures |FrameBatch(p, sessionId, tx, frames[0], sequence).packets| == Count(tx, frames[0])
    ensures forall i :: 0 <= i < |order| ==> order[i] < Count(tx, frames[0])
    ensures var f := frames[0];
            var r := Run(p, rx, s, Shuffled(FrameBatch(p, sessionId, tx, f, sequence).packets, order));
      && r.frames == (if Open(f, s) && Room(tx, f, s) then [f] else [])
      && r.missing == (if s.waiting && !f.isKeyframe then Copies(f.frameId, Count(tx, f)) else [])
      && Receiving(sessionId, r.state, now) && (forall x :: x in now ==> x < sequence + Count(tx, f))
      && Alike(r.state, After(tx, f, s), f.frameId) && PendingGenuine(tx, frames[1..], r.state)
  {
    hide Run, Shuffled, SealsAll, FrameBatch, Working, Receiving, AdmittedAs, Delivers, SendableStream, Open, Room;
    hide Count, InWindow, Resulting, Held, PendingGenuine, HeldShaped, AllFresh, AllFromStream, Newer, Copies;
    var f := frames[0];
    SendableAt(tx, frames, 0);
    hide Sendable;
    SentAllAdmitted(p, sessionId, tx, rx, f, sequence);
    var packets := FrameBatch(p, sessionId, tx, f, sequence).packets;
    ShuffledDelivers(p, sessionId, tx, rx, f, sequence, packets, order);
    var ds := Shuffled(packets, order);
    GenuineIsShaped(tx, frames, 0, s);
    FrameEmittedIffWithinWindow(p, sessionId, tx, rx, f, sequence, order, s, accepted);
    WindowHolds(order, Held(s.pending, f.frameId).Keys);
    TimelyIsFresh(accepted, sequence, order, Count(tx, f));
    MissingOfOne(p, sessionId, tx, rx, f, sequence, ds, order, s, accepted);
    OnlyThisFrame(p, sessionId, tx, rx, f, sequence, ds, order);
    RunAlone(p, sessionId, tx, rx, f, s, accepted, ds);
    now := AcceptedOver(p, rx, accepted, ds);
    AcceptedOverMembers(p, sessionId, tx, rx, f, sequence, ds, order, accepted, sequence + Count(tx, f));
    GenuineTail(tx, frames, s, Run(p, rx, s, ds).state);
  }

  lemma TimelyTail(tx: Arming, frames: seq<VideoFrame>, orders: seq<seq<uint16>>)
    requires Timely(tx, frames, orders) && frames != []
    ensures orders != []
    ensures IsPermutation(orders[0], Count(tx, frames[0])) && WithinWindow(orders[0])
    ensures Timely(tx, frames[1..], orders[1..])
  {
    hide IsPermutation, WithinWindow, Count;
  }

  lemma ArrivalsStep(p: Primitives, sessionId: uint32, tx: Arming, frames: seq<VideoFrame>, sequence: uint32,
                     orders: seq<seq<uint16>>)
    requires AllSealed(p, sessionId, tx, frames, sequence) && Timely(tx, frames, orders) && frames != []
    ensures SealsAll(p, sessionId, tx, frames[0], sequence)
    ensures var b := FrameBatch(p, sessionId, tx, frames[0], sequence);
      && b.sequence == Next(sequence, Count(tx, frames[0]))
      && (forall i :: 0 <= i < |orders[0]| ==> orders[0][i] < |b.packets|)
      && AllSealed(p, sessionId, tx, frames[1..], b.sequence) && Timely(tx, frames[1..], orders[1..])
      && Arrivals(p, sessionId, tx, frames, sequence, orders)
         == Shuffled(b.packets, orders[0]) + Arrivals(p, sessionId, tx, frames[1..], b.sequence, orders[1..])
  {
    hide SealsAll, Count, WithinWindow, FrameBatch, Shuffled, Next;
    TimelyTail(tx, frames, orders);
    hide Timely;
    SentCount(p, sessionId, tx, frames[0], sequence);
  }

  lemma SendableTail(tx: Arming, frames: seq<VideoFrame>)
    requires SendableStream(tx, frames) && frames != []
    ensures SendableStream(tx, frames[1..]) && Count(tx, frames[0]) > 0
    ensures forall k :: 0 <= k < |frames[1..]| ==> frames[0].frameId < frames[1..][k].frameId
  {
    CountPositive(tx, frames[0]);
  }

  /** Numbers do not wrap before the end of the stream: the next frame starts where this one ends. */
  lemma NextStart(tx: Arming, frames: seq<VideoFrame>, sequence: uint32)
    requires SendableStream(tx, frames) && frames != [] && sequence + Total(tx, frames) <= SEQUENCES
    ensures sequence + Count(tx, frames[0]) <= SEQUENCES
    ensures frames[1..] != [] ==>
      && Next(sequence, Count(tx, frames[0])) == sequence + Count(tx, frames[0])
      && Next(sequence, Count(tx, frames[0])) + Total(tx, frames[1..]) == sequence + Total(tx, frames)
  {
    if frames[1..] != [] {
      SendableTail(tx, frames);
      SendableTail(tx, frames[1..]);
      hide Count;
      NextWithoutWrap(sequence, Count(tx, frames[0]));
    }
  }

  /**
    A lossless frame-by-frame delivery to a receiver in any state that holds no foreign fragments under the ids of the
    stream, up to the last sequence number: exactly the frames come out that it is open for and has room for, in
    order, and it complains about every packet that comes before the keyframe it waits for.
  */
  lemma {:induction false} StreamDelivered(p: Primitives, sessionId: uint32, tx: Arming, rx: Arming,
                                           frames: seq<VideoFrame>, sequence: uint32, orders: seq<seq<uint16>>,
                                           s: State, accepted: set<uint32>)
    requires p.Laws() && Working(tx, rx) && SendableStream(tx, frames)
    requires AllSealed(p, sessionId, tx, frames, sequence) && sequence + Total(tx, frames) <= SEQUENCES
    requires Timely(tx, frames, orders)
    requires Receiving(sessionId, s, accepted) && PendingGenuine(tx, frames, s)
    requires forall x :: x in accepted ==> x < sequence
    ensures var r := Run(p, rx, s, Arrivals(p, sessionId, tx, frames, sequence, orders));
      r.frames == Delivered(tx, s, frames) && r.missing == Complaints(tx, s, frames)
    decreases |frames|
  {
    hide Push, Sendable, SealsAll, Count, WithinWindow, Receiving, FrameBatch, IsPermutation, Shuffled, Working, Timely;
    hide StrictlyIncreasing, Copies, AllSealed, SendableStream, PendingGenuine, Next, Total, Open, Room, After, Alike;
    if frames != [] {
      SendableTail(tx, frames);
      NextStart(tx, frames, sequence);
      TimelyTail(tx, frames, orders);
      ArrivalsStep(p, sessionId, tx, frames, sequence, orders);
      hide Arrivals;
      var now := FirstDelivered(p, sessionId, tx, rx, frames, sequence, orders[0], s, accepted);
      var b := FrameBatch(p, sessionId, tx, frames[0], sequence);
      var first := Shuffled(b.packets, orders[0]);
      var t := Run(p, rx, s, first).state;
      RunConcat(p, rx, s, first, Arrivals(p, sessionId, tx, frames[1..], b.sequence, orders[1..]));
      hide Run;
      DeliveredAlike(tx, t, After(tx, frames[0], s), frames[1..], frames[0].frameId);
      if frames[1..] == [] {
        NothingArrives(p, sessionId, tx, rx, frames[1..], b.sequence, orders[1..], t);
      } else {
        StreamDelivered(p, sessionId, tx, rx, frames[1..], b.sequence, orders[1..], t, now);
      }
    }
  }

  lemma NothingArrives(p: Primitives, sessionId: uint32, tx: Arming, rx: Arming, frames: seq<VideoFrame>,
                       sequence: uint32, orders: seq<seq<uint16>>, s: State)
    requires frames == [] && AllSealed(p, sessionId, tx, frames, sequence) && Timely(tx, frames, orders)
    ensures var r := Run(p, rx, s, Arrivals(p, sessionId, tx, frames, sequence, orders));
      r.frames == Delivered(tx, s, frames) && r.missing == Complaints(tx, s, frames)
  {
  }

  function FromFirstKeyframe(frames: seq<VideoFrame>): seq<VideoFrame> {
    if frames == [] || frames[0].isKeyframe then frames else FromFirstKeyframe(frames[1..])
  }

  /** One complaint per packet of each frame before the first keyframe. */
  function BeforeKeyframe(tx: Arming, frames: seq<VideoFrame>): seq<uint32> {
    if frames == [] || frames[0].isKeyframe then []
    else Copies(frames[0].frameId, Count(tx, frames[0])) + BeforeKeyframe(tx, frames[1..])
  }

  /** With nothing pending, and nothing newer emitted, everything comes out from the first keyframe on. */
  lemma {:induction false} DeliveredFresh(tx: Arming, s: State, frames: seq<VideoFrame>)
    requires SendableStream(tx, frames) && s.pending == map[]
    requires !s.waiting ==> forall k :: 0 <= k < |frames| ==> s.lastEmitted < frames[k].frameId
    ensures Delivered(tx, s, frames) == if s.waiting then FromFirstKeyframe(frames) else frames
    ensures Complaints(tx, s, frames) == if s.waiting then BeforeKeyframe(tx, frames) else []
    decreases |frames|
  {
    hide SendableStream, Count, Copies;
    if frames != [] {
      var f := frames[0];
      SendableTail(tx, frames);
      NoneNewer(s, f);
      DeliveredFresh(tx, After(tx, f, s), frames[1..]);
      HeadTail(frames);
      hide Delivered;
    }
  }

  lemma {:induction false} DeliveredShorter(tx: Arming, s: State, frames: seq<VideoFrame>)
    ensures |Delivered(tx, s, frames)| <= |frames|
    decreases |frames|
  {
    hide Open, Room, After;
    if frames != [] { DeliveredShorter(tx, After(tx, frames[0], s), frames[1..]); }
  }

  lemma OpenForNewer(tx: Arming, f: VideoFrame, g: VideoFrame, s: State)
    requires Open(f, s) && Room(tx, f, s) && f.frameId < g.frameId
    ensures Open(g, After(tx, f, s)) && After(tx, f, s).pending == s.pending
  {
    hide Count;
  }

  lemma SameTail<T>(x: T, a: seq<T>, s: seq<T>)
    requires s != [] && x == s[0]
    ensures [x] + a == s <==> a == s[1..]
  {
    HeadTail(s);
    assert ([x] + a)[1..] == a;
  }

  /** Everything comes out exactly if the receiver is open for the first frame and has room for each. */
  lemma {:induction false} AllDeliveredIff(tx: Arming, s: State, frames: seq<VideoFrame>)
    requires SendableStream(tx, frames)
    ensures Delivered(tx, s, frames) == frames <==>
      frames == [] || (Open(frames[0], s) && forall k :: 0 <= k < |frames| ==> Room(tx, frames[k], s))
    decreases |frames|
  {
    hide SendableStream, Count, Stale;
    if frames != [] {
      var f, tail, t := frames[0], frames[1..], After(tx, frames[0], s);
      SendableTail(tx, frames);
      AllDeliveredIff(tx, t, tail);
      DeliveredShorter(tx, t, tail);
      SameTail(f, Delivered(tx, t, tail), frames);
      assert forall k :: 0 <= k < |tail| ==> tail[k] == frames[k + 1];
      if Open(f, s) && Room(tx, f, s) {
        if tail != [] { OpenForNewer(tx, f, tail[0], s); }
        RoomSame(tx, s, t, tail);
        RoomAll(tx, s, frames);
      }
    }
  }

  lemma RoomSame(tx: Arming, s: State, t: State, frames: seq<VideoFrame>)
    requires t.pending == s.pending
    ensures forall k :: 0 <= k < |frames| ==> Room(tx, frames[k], t) == Room(tx, frames[k], s)
  {
    hide Count;
  }

  lemma RoomAll(tx: Arming, s: State, frames: seq<VideoFrame>)
    requires frames != []
    ensures (forall k :: 0 <= k < |frames| ==> Room(tx, frames[k], s)) <==>
      Room(tx, frames[0], s) && forall k :: 0 <= k < |frames[1..]| ==> Room(tx, frames[1..][k], s)
  {
    hide Room;
    if Room(tx, frames[0], s) && forall k :: 0 <= k < |frames[1..]| ==> Room(tx, frames[1..][k], s) {
      forall k | 0 <= k < |frames| ensures Room(tx, frames[k], s) {
        if k > 0 { assert frames[k] == frames[1..][k - 1]; }
      }
    }
  }

  lemma NoneNewer(s: State, f: VideoFrame)
    requires s.pending == map[]
    ensures !Crowded(f, s)
  {
    assert Newer(s.pending, f.frameId) == map[];
  }

  /**
    The round trip of fragmentation, sealing, opening and reassembly: a lossless frame-by-frame delivery, each
    frame's packets in any order within the replay window, to a new receiver with a matching key.
  */
  lemma LosslessDeliveryIsComplete(p: Primitives, sessionId: uint32, tx: Arming, rx: Arming,
                                   frames: seq<VideoFrame>, sequence: uint32, orders: seq<seq<uint16>>)
    requires p.Laws() && Working(tx, rx) && SendableStream(tx, frames)
    requires AllSealed(p, sessionId, tx, frames, sequence) && sequence + Total(tx, frames) <= SEQUENCES
    requires Timely(tx, frames, orders)
    ensures var r := Run(p, rx, Reassembler.INITIAL, Arrivals(p, sessionId, tx, frames, sequence, orders));
      r.frames == FromFirstKeyframe(frames) && r.missing == BeforeKeyframe(tx, frames)
  {
    hide Run, Arrivals, AllSealed, Timely, Total, SendableStream, Working, Delivered, FromFirstKeyframe;
    hide Complaints, BeforeKeyframe;
    StreamDelivered(p, sessionId, tx, rx, frames, sequence, orders, Reassembler.INITIAL, {});
    DeliveredFresh(tx, Reassembler.INITIAL, frames);
  }
}
