/** The media that follows a pairing: what the phone then sends, and what comes out of the client's reassembler. */
module PairedMedia {
  import opened Bytes
  import opened Crypto
  import opened Packetizer
  import opened PairingServer
  import opened PairingProtocol
  import Pairing
  import NativeSender
  import Client = PairingClient
  import Reassembler
  import ReassemblerInvariants
  import opened Integrity
  import opened Survival
  import opened Completeness
  import Leftovers

  /** Both parties as they meet, the PIN typed and the PIN shown, and what the phone draws. */
  datatype Setup = Setup(
    manager: Pairing.State,
    sender: NativeSender.State,
    client: Client.State,
    typedPin: string,
    now: int,
    shownPin: string,
    keys: KeyPair,
    sessionId: uint32)

  /** Some interleaving of deliveries and user commands has led to n, in which the client is paired. */
  ghost predicate Paired(p: Primitives, x: Setup, steps: seq<Step>, n: Net) {
    && p.Laws() && Pairing.IsPin(x.shownPin) && x.keys.publicKey == p.publicOf(x.keys.privateKey)
    && Accepted(x.manager, x.sender, "client", x.now, x.shownPin, x.keys, x.sessionId).0.open
    && (forall i :: 0 <= i < |steps| ==> WellDrawn(p, steps[i]))
    && n == ApplyAll(p, Begin(x.manager, x.sender, x.client, x.typedPin, x.now, x.shownPin, x.keys, x.sessionId), steps)
    && n.client.phase == Client.PAIRED
  }

  /** Pairing changes nothing that the invariants of the receiver's frames speak of. */
  lemma UntouchedKeeps(s: Reassembler.State, t: Reassembler.State)
    requires Untouched(s, t)
    ensures ReassemblerInvariants.Inv(s) ==> ReassemblerInvariants.Inv(t)
    ensures ReassemblerInvariants.Ordered(s) ==> ReassemblerInvariants.Ordered(t)
  {
    hide ReassemblerInvariants.Counted;
  }

  lemma GenuineKeeps(tx: Arming, frames: seq<VideoFrame>, s: Reassembler.State, t: Reassembler.State)
    requires Untouched(s, t) && PendingGenuine(tx, frames, s)
    ensures PendingGenuine(tx, frames, t)
  {
    hide Partial, Count;
  }

  /** The two hold mirrored keys, and the receiver is as it was but for a new replay history and session pin. */
  lemma PairedPeers(p: Primitives, x: Setup, steps: seq<Step>, n: Net)
    requires Paired(p, x, steps, n)
    requires ReassemblerInvariants.Inv(x.client.rx) && ReassemblerInvariants.Ordered(x.client.rx)
    ensures Working(n.conn.sender.mode, n.client.mode) && Compatible(n.conn.sender.mode, n.client.mode)
    ensures n.client.mode.Armed? && n.client.mode.keys.Some?
    ensures Untouched(x.client.rx, n.client.rx)
    ensures Receiving(x.sessionId, n.client.rx, {})
  {
    hide Apply, Derive, Mirrored, ReassemblerInvariants.Inv, ReassemblerInvariants.Ordered;
    var start := Begin(x.manager, x.sender, x.client, x.typedPin, x.now, x.shownPin, x.keys, x.sessionId);
    BeginInv(p, x.manager, x.sender, x.client, x.typedPin, x.now, x.shownPin, x.keys, x.sessionId);
    InvAlways(p, start, steps, x.shownPin, x.sessionId);
    MediaUntouched(p, start, steps);
    UntouchedKeeps(x.client.rx, n.client.rx);
  }

  /** Short of forging what the paired key authenticates, the network may do with the phone's media what it likes. */
  ghost predicate Genuine(p: Primitives, x: Setup, n: Net, frames: seq<VideoFrame>, sequence: uint32,
                          ds: seq<seq<byte>>)
  {
    && SendableStream(n.conn.sender.mode, frames)
    && (n.client.mode.Armed? && n.client.mode.keys.Some? ==>
          Unforged(p, n.client.mode.keys.value, Sent(p, x.sessionId, n.conn.sender.mode, frames, sequence), ds))
  }

  /**
    From the PIN to the picture: whatever interleaving paired the client, every frame that its reassembler emits is a
    frame the phone sent, unchanged, in order and at most once. The client may be in any state, as long as it holds
    no foreign fragments under the ids of the frames sent.
  */
  lemma PairedMediaIsGenuine(p: Primitives, x: Setup, steps: seq<Step>, n: Net, frames: seq<VideoFrame>,
                             sequence: uint32, ds: seq<seq<byte>>)
    requires Paired(p, x, steps, n) && Genuine(p, x, n, frames, sequence, ds)
    requires ReassemblerInvariants.Inv(x.client.rx) && ReassemblerInvariants.Ordered(x.client.rx)
    requires PendingGenuine(n.conn.sender.mode, frames, x.client.rx)
    ensures var emitted := Reassembler.Run(p, n.client.mode, n.client.rx, ds).frames;
      && (forall f :: f in emitted ==> f in frames)
      && ReassemblerInvariants.StrictlyIncreasing(emitted)
  {
    hide Unforged, Sent, SendableStream, Reassembler.Run, PendingGenuine, Working, Compatible;
    hide ReassemblerInvariants.Inv, ReassemblerInvariants.Ordered;
    var tx := n.conn.sender.mode;
    PairedPeers(p, x, steps, n);
    GenuineKeeps(tx, frames, x.client.rx, n.client.rx);
    UnforgedIsGenuine(p, n.client.mode, Sent(p, x.sessionId, tx, frames, sequence), ds);
    EndToEndIntegrity(p, x.sessionId, tx, n.client.mode, frames, sequence, n.client.rx, ds);
  }

  lemma GenuineOnly(p: Primitives, x: Setup, steps: seq<Step>, n: Net, frames: seq<VideoFrame>, sequence: uint32,
                    ds: seq<seq<byte>>)
    requires Paired(p, x, steps, n) && Genuine(p, x, n, frames, sequence, ds)
    requires n.client.mode.Armed? && n.client.mode.keys.Some?
    ensures OnlyGenuineAdmitted(p, n.client.mode, Sent(p, x.sessionId, n.conn.sender.mode, frames, sequence), ds)
  {
    hide Unforged, Sent, SendableStream, OnlyGenuineAdmitted, Paired;
    UnforgedIsGenuine(p, n.client.mode, Sent(p, x.sessionId, n.conn.sender.mode, frames, sequence), ds);
  }

  lemma DeliveredToEqual(tx: Arming, s: Reassembler.State, t: Reassembler.State, frames: seq<VideoFrame>)
    requires Untouched(s, t) && forall k :: 0 <= k < |frames| ==> frames[k].frameId > 0
    ensures Delivered(tx, t, frames) == Delivered(tx, s, frames)
    ensures Complaints(tx, t, frames) == Complaints(tx, s, frames)
  {
    hide Delivered, Complaints, Reassembler.Newer;
    DeliveredAlike(tx, t, s, frames, 0);
  }

  lemma IdsPositive(tx: Arming, frames: seq<VideoFrame>)
    requires SendableStream(tx, frames)
    ensures forall k :: 0 <= k < |frames| ==> frames[k].frameId > 0
  {
  }

  /**
    What arrives: after any pairing run, a lossless frame-by-frame delivery to a client in any such state emits
    exactly the frames that its receiver is open for and has room for - those above the last id it emitted before, a
    keyframe first if it waits for one, and those that need no place among the pending frames if all are taken by
    newer ones.
  */
  lemma PairedMediaIsDelivered(p: Primitives, x: Setup, steps: seq<Step>, n: Net, frames: seq<VideoFrame>,
                               sequence: uint32, orders: seq<seq<uint16>>)
    requires Paired(p, x, steps, n) && SendableStream(n.conn.sender.mode, frames)
    requires ReassemblerInvariants.Inv(x.client.rx) && ReassemblerInvariants.Ordered(x.client.rx)
    requires PendingGenuine(n.conn.sender.mode, frames, x.client.rx)
    requires AllSealed(p, x.sessionId, n.conn.sender.mode, frames, sequence)
    requires sequence + Total(n.conn.sender.mode, frames) <= SEQUENCES && Timely(n.conn.sender.mode, frames, orders)
    ensures var tx := n.conn.sender.mode;
            var r := Reassembler.Run(p, n.client.mode, n.client.rx,
                                     Arrivals(p, x.sessionId, tx, frames, sequence, orders));
      && r.frames == Delivered(tx, x.client.rx, frames)
      && r.missing == Complaints(tx, x.client.rx, frames)
  {
    hide SendableStream, AllSealed, Total, Timely, Arrivals, Reassembler.Run, PendingGenuine, Working, Compatible;
    hide ReassemblerInvariants.Inv, ReassemblerInvariants.Ordered, Delivered, Complaints, Receiving;
    var tx := n.conn.sender.mode;
    PairedPeers(p, x, steps, n);
    GenuineKeeps(tx, frames, x.client.rx, n.client.rx);
    StreamDelivered(p, x.sessionId, tx, n.client.mode, frames, sequence, orders, n.client.rx, {});
    IdsPositive(tx, frames);
    DeliveredToEqual(tx, x.client.rx, n.client.rx, frames);
  }

  /**
    When nothing is lost, everything comes out exactly if the client's receiver is open for the first frame - a
    keyframe if it waits for one, otherwise one that is not stale - and has room for each.
  */
  lemma PairedMediaIsComplete(p: Primitives, x: Setup, steps: seq<Step>, n: Net, frames: seq<VideoFrame>,
                              sequence: uint32, orders: seq<seq<uint16>>)
    requires Paired(p, x, steps, n) && SendableStream(n.conn.sender.mode, frames)
    requires ReassemblerInvariants.Inv(x.client.rx) && ReassemblerInvariants.Ordered(x.client.rx)
    requires PendingGenuine(n.conn.sender.mode, frames, x.client.rx)
    requires AllSealed(p, x.sessionId, n.conn.sender.mode, frames, sequence)
    requires sequence + Total(n.conn.sender.mode, frames) <= SEQUENCES && Timely(n.conn.sender.mode, frames, orders)
    ensures var tx := n.conn.sender.mode;
            var arrivals := Arrivals(p, x.sessionId, tx, frames, sequence, orders);
      Reassembler.Run(p, n.client.mode, n.client.rx, arrivals).frames == frames
      <==> frames == []
           || (Open(frames[0], x.client.rx) && forall k :: 0 <= k < |frames| ==> Room(tx, frames[k], x.client.rx))
  {
    hide SendableStream, AllSealed, Total, Timely, Arrivals, Reassembler.Run, Delivered, Complaints, Paired;
    hide ReassemblerInvariants.Inv, ReassemblerInvariants.Ordered, PendingGenuine, Open, Room;
    PairedMediaIsDelivered(p, x, steps, n, frames, sequence, orders);
    AllDeliveredIff(n.conn.sender.mode, x.client.rx, frames);
  }

  /**
    Where not everything arrives. A new client collects sixteen unkeyed first fragments of keyframes, under ids above
    those of the stream, and is then paired. If the stream's keyframes have several fragments each, it waits for ever:
    pairing clears no pending frames, and each fragment of the stream is the oldest of seventeen.
  */
  lemma FilledClientStarves(p: Primitives, x: Setup, steps: seq<Step>, n: Net, frames: seq<VideoFrame>,
                            sequence: uint32, ds: seq<seq<byte>>, foreign: seq<seq<byte>>, session: uint32,
                            bound: uint32)
    requires Paired(p, x, steps, n) && Genuine(p, x, n, frames, sequence, ds)
    requires Leftovers.Fillers(p, foreign, session, bound) && |foreign| == Reassembler.MAX_PENDING
    requires x.client.rx == Reassembler.Run(p, Plain, Reassembler.INITIAL, foreign).state
    requires forall k :: 0 <= k < |frames| ==> frames[k].frameId <= bound
    requires forall k :: 0 <= k < |frames| && frames[k].isKeyframe ==> Count(n.conn.sender.mode, frames[k]) > 1
    ensures Reassembler.Run(p, n.client.mode, n.client.rx, ds).frames == []
  {
    hide Unforged, Sent, SendableStream, Reassembler.Run, Working, Compatible, Count, Leftovers.Fillers, Receiving;
    hide OnlyGenuineAdmitted, ReassemblerInvariants.Inv, ReassemblerInvariants.Ordered;
    Leftovers.FilledFromNew(p, session, bound, foreign);
    PairedPeers(p, x, steps, n);
    GenuineOnly(p, x, steps, n, frames, sequence, ds);
    Leftovers.FullReceiverStarves(p, x.sessionId, n.conn.sender.mode, n.client.mode, frames, sequence, n.client.rx, {},
                                  ds);
  }

  /**
    Nor here. The phone starts numbering its frames again, and a client whose reassembler has emitted frame L before
    sees none of the first L.
  */
  lemma RestartedCounterUnseen(p: Primitives, x: Setup, steps: seq<Step>, n: Net, nals: seq<NativeSender.Nal>,
                               sequence: uint32, ds: seq<seq<byte>>, g: VideoFrame)
    requires Paired(p, x, steps, n) && Genuine(p, x, n, NativeSender.Numbered(0, nals), sequence, ds)
    requires ReassemblerInvariants.Inv(x.client.rx) && ReassemblerInvariants.Ordered(x.client.rx)
    requires PendingGenuine(n.conn.sender.mode, NativeSender.Numbered(0, nals), x.client.rx)
    requires !x.client.rx.waiting && ReassemblerInvariants.Numbered(x.client.rx.lastEmitted)
    requires |NativeSender.Numbered(0, nals)| < SEQUENCES
    requires g in Reassembler.Run(p, n.client.mode, n.client.rx, ds).frames
    ensures var frames := NativeSender.Numbered(0, nals);
      exists i :: x.client.rx.lastEmitted <= i < |frames| && g == frames[i]
  {
    hide Unforged, Sent, SendableStream, Reassembler.Run, Working, Compatible, PendingGenuine, Receiving;
    hide OnlyGenuineAdmitted, ReassemblerInvariants.Inv, ReassemblerInvariants.Ordered, NativeSender.Numbered;
    var frames := NativeSender.Numbered(0, nals);
    PairedPeers(p, x, steps, n);
    GenuineOnly(p, x, steps, n, frames, sequence, ds);
    GenuineKeeps(n.conn.sender.mode, frames, x.client.rx, n.client.rx);
    ReceivingOrdered(x.sessionId, n.client.rx, {});
    Leftovers.OlderStreamUnseen(p, x.sessionId, n.conn.sender.mode, n.client.mode, frames, sequence, n.client.rx, ds);
    var i :| 0 <= i < |frames| && g == frames[i];
    NativeSender.NumberedIds(0, nals, i);
  }
}
