/** The end of the sequence numbers: completeness up to the last one, and what the wrap does to the stream. */
module Wraparound {
  import opened Bytes
  import opened Crypto
  import Filter = ReplayFilter
  import opened Packetizer
  import opened Reassembler
  import opened ReassemblerInvariants
  import opened Integrity
  import opened Survival
  import opened Completeness

  // ---- Delivery as sent ----

  function Ascending(n: uint16): (order: seq<uint16>)
    ensures |order| == n && forall i :: 0 <= i < n ==> order[i] == i
    decreases n
  {
    if n == 0 then [] else Ascending(n - 1) + [n - 1]
  }

  function SendOrders(tx: Arming, frames: seq<VideoFrame>): seq<seq<uint16>> {
    if frames == [] then [] else [Ascending(Count(tx, frames[0]))] + SendOrders(tx, frames[1..])
  }

  lemma {:induction false} SendOrdersTimely(tx: Arming, frames: seq<VideoFrame>)
    ensures Timely(tx, frames, SendOrders(tx, frames))
  {
    hide Count;
    if frames != [] {
      SendOrdersTimely(tx, frames[1..]);
      SendOrderAnySize(Ascending(Count(tx, frames[0])));
      hide IsPermutation, WithinWindow, Ascending;
      var orders, tail := SendOrders(tx, frames), SendOrders(tx, frames[1..]);
      forall k | 0 <= k < |frames|
        ensures IsPermutation(orders[k], Count(tx, frames[k])) && WithinWindow(orders[k])
      {
        if k > 0 { assert orders[k] == tail[k - 1] && frames[k] == frames[1..][k - 1]; }
      }
    }
  }

  lemma {:induction false} ShuffledAscending(packets: seq<seq<byte>>, order: seq<uint16>, from: nat)
    requires from + |order| == |packets| && forall i :: 0 <= i < |order| ==> order[i] == from + i
    ensures Shuffled(packets, order) == packets[from..]
    decreases |order|
  {
    if order != [] {
      ShuffledAscending(packets, order[1..], from + 1);
      assert packets[from..] == [packets[from]] + packets[from + 1..];
    } else {
      assert packets[from..] == [];
    }
  }

  lemma SentStep(p: Primitives, sessionId: uint32, tx: Arming, frames: seq<VideoFrame>, sequence: uint32)
    requires frames != []
    ensures var b := FrameBatch(p, sessionId, tx, frames[0], sequence);
      Sent(p, sessionId, tx, frames, sequence) == b.packets + Sent(p, sessionId, tx, frames[1..], b.sequence)
  {
    hide FrameBatch;
    assert Videos(frames)[1..] == Videos(frames[1..]);
  }

  lemma {:induction false} SentIsArrivals(p: Primitives, sessionId: uint32, tx: Arming, frames: seq<VideoFrame>,
                                          sequence: uint32)
    requires AllSealed(p, sessionId, tx, frames, sequence)
    ensures Timely(tx, frames, SendOrders(tx, frames))
    ensures Sent(p, sessionId, tx, frames, sequence)
         == Arrivals(p, sessionId, tx, frames, sequence, SendOrders(tx, frames))
    decreases |frames|
  {
    hide SealsAll, FrameBatch, Count, Next, Timely;
    SendOrdersTimely(tx, frames);
    if frames == [] {
      assert Videos(frames) == [];
    } else {
      SentCount(p, sessionId, tx, frames[0], sequence);
      var b := FrameBatch(p, sessionId, tx, frames[0], sequence);
      var order := Ascending(Count(tx, frames[0]));
      SentStep(p, sessionId, tx, frames, sequence);
      ShuffledAscending(b.packets, order, 0);
      SentIsArrivals(p, sessionId, tx, frames[1..], b.sequence);
      ArrivalsStep(p, sessionId, tx, frames, sequence, SendOrders(tx, frames));
      hide Sent, Arrivals, Shuffled;
      assert SendOrders(tx, frames)[0] == order && SendOrders(tx, frames)[1..] == SendOrders(tx, frames[1..]);
      assert b.packets[0..] == b.packets;
    }
  }

  // ---- The packet that wraps ----

  /** Packet g carries fragment j of frame k under number 0, right after the last number there is; no other does. */
  ghost predicate Wraps(p: Primitives, rx: Arming, frames: seq<VideoFrame>, ds: seq<seq<byte>>, k: nat, j: uint16,
                        g: nat)
  {
    && k < |frames| && 0 < g < |ds|
    && Admit(p, rx, ds[g]).Some? && Number(p, rx, ds[g]) == 0
    && Admit(p, rx, ds[g - 1]).Some? && Number(p, rx, ds[g - 1]) == SEQUENCES - 1
    && forall h :: 0 <= h < |ds| && Brings(p, rx, ds[h], frames[k].frameId, j) ==> h == g
  }

  lemma NextAtEnd(sequence: uint32)
    ensures Next(sequence, SEQUENCES - sequence) == 0 && Next(sequence, SEQUENCES - 1 - sequence) == SEQUENCES - 1
  {
    NextWithoutWrap(sequence, SEQUENCES - 1 - sequence);
    assert Next(sequence, SEQUENCES - sequence) == Increment(Next(sequence, SEQUENCES - sequence - 1));
  }

  /** The packets of a stream bring fragments of its own frames only. */
  lemma SentNames(p: Primitives, sessionId: uint32, tx: Arming, rx: Arming, frames: seq<VideoFrame>, sequence: uint32,
                  d: seq<byte>, id: uint32, j: uint16)
    returns (m: nat)
    requires p.Laws() && Working(tx, rx) && d in Sent(p, sessionId, tx, frames, sequence)
    requires Brings(p, rx, d, id, j)
    ensures m < |frames| && frames[m].frameId == id
  {
    hide Sent, Admit;
    RelayIsGenuine(p, rx, Sent(p, sessionId, tx, frames, sequence), [d]);
    GenuineIsFromStream(p, sessionId, tx, rx, frames, sequence, [d]);
    assert FromStream(p, sessionId, tx, rx, frames, [d][0]);
    m := AnnouncedFrame(p, sessionId, tx, rx, frames, d);
  }

  lemma BatchBrings(p: Primitives, sessionId: uint32, tx: Arming, rx: Arming, f: VideoFrame, sequence: uint32, i: nat)
    requires p.Laws() && Working(tx, rx) && SealsAll(p, sessionId, tx, f, sequence) && i < Count(tx, f)
    ensures var packets := FrameBatch(p, sessionId, tx, f, sequence).packets;
      && |packets| == Count(tx, f) && Admit(p, rx, packets[i]).Some?
      && Number(p, rx, packets[i]) == Next(sequence, i)
      && forall id, j :: Brings(p, rx, packets[i], id, j) <==> id == f.frameId && j == i
  {
    hide Admit, SealsAll, FrameBatch, Count, Next, Working;
    BatchAdmitted(p, sessionId, tx, rx, f, sequence);
    var packets := FrameBatch(p, sessionId, tx, f, sequence).packets;
    assert AdmittedAs(p, sessionId, tx, rx, f, Next(sequence, i), packets[i], i);
  }

  /** Fragment j of the first frame is packet j, and no other. */
  lemma FirstFrameBrings(p: Primitives, sessionId: uint32, tx: Arming, rx: Arming, frames: seq<VideoFrame>,
                         sequence: uint32, j: uint16, h: nat)
    requires p.Laws() && Working(tx, rx) && SendableStream(tx, frames) && frames != []
    requires AllSealed(p, sessionId, tx, frames, sequence)
    requires h < |Sent(p, sessionId, tx, frames, sequence)|
    requires Brings(p, rx, Sent(p, sessionId, tx, frames, sequence)[h], frames[0].frameId, j)
    ensures h == j
  {
    hide Brings, SealsAll, FrameBatch, Count, Next, Working, Sent, SendableStream;
    var b := FrameBatch(p, sessionId, tx, frames[0], sequence);
    var rest := Sent(p, sessionId, tx, frames[1..], b.sequence);
    SentStep(p, sessionId, tx, frames, sequence);
    SentCount(p, sessionId, tx, frames[0], sequence);
    var all := Sent(p, sessionId, tx, frames, sequence);
    if h < |b.packets| {
      assert all[h] == b.packets[h];
      BatchBrings(p, sessionId, tx, rx, frames[0], sequence, h);
    } else {
      assert all[h] == rest[h - |b.packets|];
      var m := SentNames(p, sessionId, tx, rx, frames[1..], b.sequence, all[h], frames[0].frameId, j);
      SendableTail(tx, frames);
    }
  }

  lemma WrapsLater(p: Primitives, sessionId: uint32, tx: Arming, rx: Arming, frames: seq<VideoFrame>, sequence: uint32,
                   k: nat, j: uint16, g: nat)
    requires p.Laws() && Working(tx, rx) && SendableStream(tx, frames) && frames != []
    requires AllSealed(p, sessionId, tx, frames, sequence)
    requires var next := FrameBatch(p, sessionId, tx, frames[0], sequence).sequence;
      Wraps(p, rx, frames[1..], Sent(p, sessionId, tx, frames[1..], next), k, j, g)
    ensures Wraps(p, rx, frames, Sent(p, sessionId, tx, frames, sequence), k + 1, j, g + Count(tx, frames[0]))
  {
    hide Brings, SealsAll, FrameBatch, Count, Next, Working, Sent, SendableStream, Admit;
    var b := FrameBatch(p, sessionId, tx, frames[0], sequence);
    var rest := Sent(p, sessionId, tx, frames[1..], b.sequence);
    SentStep(p, sessionId, tx, frames, sequence);
    SentCount(p, sessionId, tx, frames[0], sequence);
    SendableTail(tx, frames);
    var all, n := Sent(p, sessionId, tx, frames, sequence), |b.packets|;
    assert all[n + g] == rest[g] && all[n + g - 1] == rest[g - 1];
    assert frames[k + 1] == frames[1..][k];
    forall h | 0 <= h < |all| && Brings(p, rx, all[h], frames[k + 1].frameId, j) ensures h == n + g {
      if h < n {
        assert all[h] == b.packets[h];
        BatchBrings(p, sessionId, tx, rx, frames[0], sequence, h);
      } else {
        assert all[h] == rest[h - n];
      }
    }
  }

  /** Packet i of the first batch, as it lies in the stream. */
  lemma FirstBatchAt(p: Primitives, sessionId: uint32, tx: Arming, rx: Arming, frames: seq<VideoFrame>,
                     sequence: uint32, i: nat)
    requires p.Laws() && Working(tx, rx) && frames != [] && SealsAll(p, sessionId, tx, frames[0], sequence)
    requires i < Count(tx, frames[0])
    ensures var all := Sent(p, sessionId, tx, frames, sequence);
      i < |all| && Admit(p, rx, all[i]).Some? && Number(p, rx, all[i]) == Next(sequence, i)
  {
    hide Brings, SealsAll, FrameBatch, Count, Next, Working, Sent, Admit;
    SentStep(p, sessionId, tx, frames, sequence);
    BatchBrings(p, sessionId, tx, rx, frames[0], sequence, i);
    assert Sent(p, sessionId, tx, frames, sequence)[i] == FrameBatch(p, sessionId, tx, frames[0], sequence).packets[i];
  }

  /** The wrap falls inside the first frame. */
  lemma WrapsInside(p: Primitives, sessionId: uint32, tx: Arming, rx: Arming, frames: seq<VideoFrame>,
                    sequence: uint32, n: uint16)
    requires p.Laws() && Working(tx, rx) && SendableStream(tx, frames) && frames != []
    requires AllSealed(p, sessionId, tx, frames, sequence)
    requires sequence + n == SEQUENCES && n < Count(tx, frames[0])
    ensures Wraps(p, rx, frames, Sent(p, sessionId, tx, frames, sequence), 0, n, n)
  {
    hide Brings, SealsAll, FrameBatch, Count, Next, Working, Sent, SendableStream, Admit, Number;
    NextAtEnd(sequence);
    FirstBatchAt(p, sessionId, tx, rx, frames, sequence, n);
    FirstBatchAt(p, sessionId, tx, rx, frames, sequence, n - 1);
    var all := Sent(p, sessionId, tx, frames, sequence);
    forall h | 0 <= h < |all| && Brings(p, rx, all[h], frames[0].frameId, n) ensures h == n {
      FirstFrameBrings(p, sessionId, tx, rx, frames, sequence, n, h);
    }
  }

  /** The wrap falls between the first frame and the second. */
  lemma WrapsBetween(p: Primitives, sessionId: uint32, tx: Arming, rx: Arming, frames: seq<VideoFrame>,
                     sequence: uint32)
    requires p.Laws() && Working(tx, rx) && SendableStream(tx, frames) && |frames| > 1
    requires AllSealed(p, sessionId, tx, frames, sequence) && sequence + Count(tx, frames[0]) == SEQUENCES
    ensures Wraps(p, rx, frames, Sent(p, sessionId, tx, frames, sequence), 1, 0, Count(tx, frames[0]))
  {
    hide Brings, SealsAll, FrameBatch, Count, Next, Working, Sent, SendableStream, Admit;
    var b := FrameBatch(p, sessionId, tx, frames[0], sequence);
    var tail := frames[1..];
    var c := FrameBatch(p, sessionId, tx, tail[0], b.sequence);
    var rest := Sent(p, sessionId, tx, tail, b.sequence);
    SentStep(p, sessionId, tx, frames, sequence);
    SentCount(p, sessionId, tx, frames[0], sequence);
    SentStep(p, sessionId, tx, tail, b.sequence);
    SendableTail(tx, frames);
    SendableTail(tx, tail);
    NextAtEnd(sequence);
    var all, n := Sent(p, sessionId, tx, frames, sequence), |b.packets|;
    BatchBrings(p, sessionId, tx, rx, frames[0], sequence, n - 1);
    BatchBrings(p, sessionId, tx, rx, tail[0], b.sequence, 0);
    ZeroSteps(b.sequence);
    assert rest[0] == c.packets[0];
    assert all[n - 1] == b.packets[n - 1] && all[n] == rest[0];
    forall h | 0 <= h < |all| && Brings(p, rx, all[h], frames[1].frameId, 0) ensures h == n {
      if h < n {
        assert all[h] == b.packets[h];
        BatchBrings(p, sessionId, tx, rx, frames[0], sequence, h);
      } else {
        assert all[h] == rest[h - n];
        FirstFrameBrings(p, sessionId, tx, rx, tail, b.sequence, 0, h - n);
      }
    }
  }

  lemma ZeroSteps(sequence: uint32)
    ensures Next(sequence, 0) == sequence
  {
  }

  lemma {:induction false} FindWrap(p: Primitives, sessionId: uint32, tx: Arming, rx: Arming, frames: seq<VideoFrame>,
                                    sequence: uint32)
    returns (k: nat, j: uint16, g: nat)
    requires p.Laws() && Working(tx, rx) && SendableStream(tx, frames)
    requires AllSealed(p, sessionId, tx, frames, sequence) && sequence + Total(tx, frames) > SEQUENCES
    ensures Wraps(p, rx, frames, Sent(p, sessionId, tx, frames, sequence), k, j, g) && j < Count(tx, frames[k])
    decreases |frames|
  {
    hide SealsAll, FrameBatch, Count, Next, Working, Sent, SendableStream, Wraps;
    var c := Count(tx, frames[0]);
    if sequence + c > SEQUENCES {
      WrapsInside(p, sessionId, tx, rx, frames, sequence, SEQUENCES - sequence);
      k, j, g := 0, SEQUENCES - sequence, SEQUENCES - sequence;
    } else if sequence + c == SEQUENCES {
      SendableTail(tx, frames);
      SendableTail(tx, frames[1..]);
      WrapsBetween(p, sessionId, tx, rx, frames, sequence);
      k, j, g := 1, 0, c;
      assert frames[1] == frames[1..][0];
    } else {
      SendableTail(tx, frames);
      SentCount(p, sessionId, tx, frames[0], sequence);
      NextWithoutWrap(sequence, c);
      var b := FrameBatch(p, sessionId, tx, frames[0], sequence);
      k, j, g := FindWrap(p, sessionId, tx, rx, frames[1..], b.sequence);
      WrapsNames(p, rx, frames[1..], Sent(p, sessionId, tx, frames[1..], b.sequence), k, j, g);
      WrapsLater(p, sessionId, tx, rx, frames, sequence, k, j, g);
      assert frames[k + 1] == frames[1..][k];
      k, g := k + 1, g + c;
    }
  }

  lemma WrapsNames(p: Primitives, rx: Arming, frames: seq<VideoFrame>, ds: seq<seq<byte>>, k: nat, j: uint16, g: nat)
    requires Wraps(p, rx, frames, ds, k, j, g)
    ensures k < |frames|
  {
  }

  lemma WrappedIsLate(p: Primitives, rx: Arming, frames: seq<VideoFrame>, ds: seq<seq<byte>>, k: nat, j: uint16, g: nat,
                      s: State, accepted: set<uint32>, i: nat)
    requires Wraps(p, rx, frames, ds, k, j, g)
    ensures !ArrivesAt(p, rx, frames[k], s, accepted, ds, j, i)
  {
    hide Admit, Run, Open, Filter.Fresh, Brings;
    assert !Earlier(p, rx, 0, ds[g - 1]);
  }

  /** The frame with that packet does not come out: number 0 is refused once the last number has been accepted. */
  lemma WrappedFrameLost(p: Primitives, sessionId: uint32, tx: Arming, rx: Arming, frames: seq<VideoFrame>,
                         sequence: uint32, k: nat, j: uint16, g: nat, s: State, accepted: set<uint32>)
    requires p.Laws() && Compatible(tx, rx) && SendableStream(tx, frames)
    requires Receiving(sessionId, s, accepted) && PendingGenuine(tx, frames, s)
    requires Wraps(p, rx, frames, Sent(p, sessionId, tx, frames, sequence), k, j, g)
    requires j < Count(tx, frames[k]) && frames[k].frameId !in s.pending
    ensures frames[k] !in Run(p, rx, s, Sent(p, sessionId, tx, frames, sequence)).frames
  {
    hide SendableStream, PendingGenuine, Receiving, Run, Undisturbed, Compatible, Sent, Count, Admit, Filter.Fresh;
    hide Brings, Open;
    var ds := Sent(p, sessionId, tx, frames, sequence);
    RelayIsGenuine(p, rx, ds, ds);
    GenuineFrameEmittedIff(p, sessionId, tx, rx, frames, sequence, k, s, accepted, ds);
    forall i: nat ensures !ArrivesAt(p, rx, frames[k], s, accepted, ds, j, i) {
      WrappedIsLate(p, rx, frames, ds, k, j, g, s, accepted, i);
    }
    assert j !in Held(s.pending, frames[k].frameId);
  }

  /**
    The packets of a stream, delivered as they were sent to a receiver that would take every frame: all of them come
    out exactly as long as the sequence numbers last. The frame in which they wrap is lost.
  */
  lemma StreamCompleteIff(p: Primitives, sessionId: uint32, tx: Arming, rx: Arming, frames: seq<VideoFrame>,
                          sequence: uint32, s: State, accepted: set<uint32>)
    requires p.Laws() && Working(tx, rx) && SendableStream(tx, frames)
    requires AllSealed(p, sessionId, tx, frames, sequence)
    requires Receiving(sessionId, s, accepted) && forall x :: x in accepted ==> x < sequence
    requires forall k :: 0 <= k < |frames| ==> frames[k].frameId !in s.pending
    requires Delivered(tx, s, frames) == frames
    ensures Run(p, rx, s, Sent(p, sessionId, tx, frames, sequence)).frames == frames
            <==> sequence + Total(tx, frames) <= SEQUENCES
  {
    hide SendableStream, Receiving, Run, Sent, AllSealed, Total, Delivered, Wraps, Timely, Arrivals;
    if sequence + Total(tx, frames) <= SEQUENCES {
      SentIsArrivals(p, sessionId, tx, frames, sequence);
      StreamDelivered(p, sessionId, tx, rx, frames, sequence, SendOrders(tx, frames), s, accepted);
    } else {
      var k, j, g := FindWrap(p, sessionId, tx, rx, frames, sequence);
      WrapsNames(p, rx, frames, Sent(p, sessionId, tx, frames, sequence), k, j, g);
      WrappedFrameLost(p, sessionId, tx, rx, frames, sequence, k, j, g, s, accepted);
      assert frames[k] in frames;
    }
  }

  // ---- After the wrap ----

  /** Admitted under a number that lies 64 or more below the last one there is. */
  ghost predicate LowNumber(p: Primitives, rx: Arming, d: seq<byte>) {
    Admit(p, rx, d).Some? ==> Number(p, rx, d) + Filter.WINDOW < SEQUENCES
  }

  /** Once the last number has been accepted, packets with wrapped numbers leave the receiver as it was. */
  lemma {:induction false} WrappedAreIdle(p: Primitives, sessionId: uint32, tx: Arming, rx: Arming,
                                          frames: seq<VideoFrame>, s: State, accepted: set<uint32>, ds: seq<seq<byte>>)
    requires Receiving(sessionId, s, accepted) && SEQUENCES - 1 in accepted
    requires AllFromStream(p, sessionId, tx, rx, frames, ds)
    requires forall i :: 0 <= i < |ds| ==> LowNumber(p, rx, ds[i])
    ensures Run(p, rx, s, ds) == Trace(s, [], [])
    decreases |ds|
  {
    hide Push, Receiving, AllFromStream, LowNumber;
    if ds != [] {
      TailFromStream(p, sessionId, tx, rx, frames, ds);
      assert LowNumber(p, rx, ds[0]);
      LowIsIdle(p, sessionId, tx, rx, frames, s, accepted, ds[0]);
      WrappedAreIdle(p, sessionId, tx, rx, frames, s, accepted, ds[1..]);
    }
  }

  lemma LowIsIdle(p: Primitives, sessionId: uint32, tx: Arming, rx: Arming, frames: seq<VideoFrame>, s: State,
                  accepted: set<uint32>, d: seq<byte>)
    requires Receiving(sessionId, s, accepted) && SEQUENCES - 1 in accepted
    requires FromStream(p, sessionId, tx, rx, frames, d) && LowNumber(p, rx, d)
    ensures Push(p, rx, s, d) == Outcome(s, REFUSED)
  {
    hide Admit, Receive, FragmentOfSome, Ordered, Inv, Filter.Remembers;
    if Admit(p, rx, d).Some? {
      assert !Filter.Fresh(accepted, Number(p, rx, d));
      ReceiveCases(s, Admit(p, rx, d).value, accepted);
    }
  }
}
