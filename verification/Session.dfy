/**
  VeyraSession's receive path: every received datagram goes to the reassembler, and every frame it assembles is
  pushed into the jitter buffer, which is then polled once.
*/
module Session {
  import opened Wrappers
  import opened Bytes
  import opened Crypto
  import opened Packetizer
  import Reassembler
  import ReassemblerInvariants
  import Integrity
  import opened JitterBuffer
  import opened Sequences

  /** The constructor's jitter buffer configuration. */
  const SESSION_CONFIG: Config := Config(20, 80, 10)

  /** A received datagram, and the clock readings of the push and the pop it may cause. */
  datatype Input = Input(datagram: seq<byte>, pushAt: int, popAt: int)

  datatype Flow = Flow(reassembler: Reassembler.State, jitter: JitterBuffer.State)

  datatype Delivery = Delivery(jitter: JitterBuffer.State, frame: Option<VideoFrame>)

  /** OnAssembledFrameReady: push, then poll. */
  function Assembled(c: Config, js: JitterBuffer.State, f: VideoFrame, pushAt: int, popAt: int): Delivery
    requires c.Valid()
  {
    var r := AfterPop(c, AfterPush(c, js, f, pushAt).state, popAt);
    Delivery(r.state, if r.entry.Some? then Some(r.entry.value.frame) else None)
  }

  datatype Received = Received(flow: Flow, emitted: Option<VideoFrame>, delivered: Option<VideoFrame>)

  function Receive(p: Primitives, mode: Arming, c: Config, fl: Flow, i: Input): Received
    requires c.Valid()
  {
    var o := Reassembler.Push(p, mode, fl.reassembler, i.datagram);
    if o.effects.frame.None? then Received(fl.(reassembler := o.state), None, None)
    else
      var d := Assembled(c, fl.jitter, o.effects.frame.value, i.pushAt, i.popAt);
      Received(Flow(o.state, d.jitter), o.effects.frame, d.frame)
  }

  /** Frames that left the reassembler, and frames handed to the frame callback. */
  datatype Progress = Progress(flow: Flow, emitted: seq<VideoFrame>, delivered: seq<VideoFrame>)

  function Run(p: Primitives, mode: Arming, c: Config, fl: Flow, inputs: seq<Input>): Progress
    requires c.Valid()
    decreases |inputs|
  {
    if inputs == [] then Progress(fl, [], [])
    else
      var r := Receive(p, mode, c, fl, inputs[0]);
      var rest := Run(p, mode, c, r.flow, inputs[1..]);
      Progress(rest.flow, Reassembler.Listed(r.emitted) + rest.emitted,
               Reassembler.Listed(r.delivered) + rest.delivered)
  }

  function Datagrams(inputs: seq<Input>): (ds: seq<seq<byte>>)
    ensures |ds| == |inputs|
    ensures forall k :: 0 <= k < |inputs| ==> ds[k] == inputs[k].datagram
  {
    if inputs == [] then [] else [inputs[0].datagram] + Datagrams(inputs[1..])
  }

  /** The jitter buffer does not disturb the reassembler. */
  lemma {:induction false} EmittedByReassembler(p: Primitives, mode: Arming, c: Config, fl: Flow, inputs: seq<Input>)
    requires c.Valid()
    ensures var r := Run(p, mode, c, fl, inputs);
            var t := Reassembler.Run(p, mode, fl.reassembler, Datagrams(inputs));
      r.emitted == t.frames && r.flow.reassembler == t.state
    decreases |inputs|
  {
    hide Reassembler.Push, Assembled;
    if inputs != [] {
      EmittedByReassembler(p, mode, c, Receive(p, mode, c, fl, inputs[0]).flow, inputs[1..]);
      assert Datagrams(inputs)[1..] == Datagrams(inputs[1..]);
    }
  }

  // ---- The pipeline in front of the callback ----

  function Frames(queue: seq<Entry>): (r: seq<VideoFrame>)
    ensures |r| == |queue|
  {
    if queue == [] then [] else [queue[0].frame] + Frames(queue[1..])
  }

  lemma {:induction false} FramesSnoc(queue: seq<Entry>, e: Entry)
    ensures Frames(queue + [e]) == Frames(queue) + [e.frame]
  {
    if queue == [] {
      assert [e][1..] == [];
    } else {
      FramesSnoc(queue[1..], e);
      assert (queue + [e])[1..] == queue[1..] + [e];
    }
  }

  lemma {:induction false} FramesAt(queue: seq<Entry>, i: nat)
    requires i < |queue|
    ensures Frames(queue)[i] == queue[i].frame
  {
    if i != 0 { FramesAt(queue[1..], i - 1); }
  }

  /** How many frames the buffer may hold back between packets. */
  function Withheld(c: Config): nat {
    if c.maxQueueFrames < 4 then 0 else c.maxQueueFrames / 2 - 1
  }

  ghost predicate Ascending(frames: seq<VideoFrame>) {
    forall i, j :: 0 <= i < j < |frames| ==> frames[i].timestampUs < frames[j].timestampUs
  }

  /** Between packets: a short queue, and nothing queued before the first keyframe. */
  ghost predicate Settled(c: Config, js: JitterBuffer.State) {
    |js.queue| <= Withheld(c) && (js.waiting ==> js.queue == [])
  }

  /** A frame that is newer than all queued joins at the end, and nothing overflows. */
  lemma PushedInOrder(c: Config, js: JitterBuffer.State, f: VideoFrame, pushAt: int)
    requires c.Valid() && Settled(c, js) && (js.waiting ==> f.isKeyframe)
    requires Ascending(Frames(js.queue) + [f])
    ensures var pushed := AfterPush(c, js, f, pushAt).state;
      && pushed.queue == js.queue + [Entry(f, pushAt)] && !pushed.waiting && pushed.dropped == js.dropped
  {
    var all := Frames(js.queue) + [f];
    forall i | 0 <= i < |js.queue| ensures js.queue[i].frame.timestampUs < f.timestampUs {
      FramesAt(js.queue, i);
      assert all[i] == js.queue[i].frame && all[|js.queue|] == f;
    }
    hide Ascending, LowerBound, ElapsedMs, Frames;
    assert js.queue[Overflow(c, |js.queue|)..] == js.queue;
    InsertNewest(js.queue, Entry(f, pushAt));
    hide Insert;
  }

  lemma FramesHead(queue: seq<Entry>)
    requires queue != []
    ensures Frames(queue) == [queue[0].frame] + Frames(queue[1..])
  {
  }

  /** One assembled frame that is newer than all queued: appended, then at most the head leaves. */
  lemma AssembledInOrder(c: Config, js: JitterBuffer.State, f: VideoFrame, pushAt: int, popAt: int)
    requires c.Valid() && Settled(c, js) && (js.waiting ==> f.isKeyframe)
    requires Ascending(Frames(js.queue) + [f])
    ensures var d := Assembled(c, js, f, pushAt, popAt);
      && Settled(c, d.jitter) && !d.jitter.waiting && d.jitter.dropped == js.dropped
      && Reassembler.Listed(d.frame) + Frames(d.jitter.queue) == Frames(js.queue) + [f]
  {
    hide Ascending, ElapsedMs, AfterPush, Frames;
    PushedInOrder(c, js, f, pushAt);
    FramesSnoc(js.queue, Entry(f, pushAt));
    var queue := js.queue + [Entry(f, pushAt)];
    FramesHead(queue);
    NoneListed(Frames(queue), []);
    SomeListed(queue[0].frame);
    hide Reassembler.Listed;
  }

  lemma AscendingSplit(a: seq<VideoFrame>, f: VideoFrame, b: seq<VideoFrame>)
    requires Ascending(a + [f] + b)
    ensures Ascending(a + [f])
  {
    var s, t := a + [f], a + [f] + b;
    forall i, j | 0 <= i < j < |s| ensures s[i].timestampUs < s[j].timestampUs {
      assert s[i] == t[i] && s[j] == t[j];
    }
  }

  lemma AscendingDrop(a: seq<VideoFrame>, b: seq<VideoFrame>)
    requires Ascending(a + b)
    ensures Ascending(b)
  {
    forall i, j | 0 <= i < j < |b| ensures b[i].timestampUs < b[j].timestampUs {
      assert b[i] == (a + b)[|a| + i] && b[j] == (a + b)[|a| + j];
    }
  }

  lemma PipelineStep(c: Config, js: JitterBuffer.State, f: VideoFrame, pushAt: int, popAt: int, rest: seq<VideoFrame>)
    requires c.Valid() && Settled(c, js) && (js.waiting ==> f.isKeyframe)
    requires Ascending(Frames(js.queue) + ([f] + rest))
    ensures var d := Assembled(c, js, f, pushAt, popAt);
            var out, queued := Reassembler.Listed(d.frame), Frames(d.jitter.queue);
      && Settled(c, d.jitter) && !d.jitter.waiting && d.jitter.dropped == js.dropped
      && out + queued + rest == Frames(js.queue) + ([f] + rest)
      && Ascending(queued + rest)
  {
    hide Ascending, Assembled, Frames, Settled;
    var q := Frames(js.queue);
    assert q + ([f] + rest) == q + [f] + rest;
    AscendingSplit(q, f, rest);
    AssembledInOrder(c, js, f, pushAt, popAt);
    var d := Assembled(c, js, f, pushAt, popAt);
    var out, queued := Reassembler.Listed(d.frame), Frames(d.jitter.queue);
    assert out + queued + rest == out + (queued + rest);
    AscendingDrop(out, queued + rest);
  }

  lemma {:induction false} PipelineFrom(p: Primitives, mode: Arming, c: Config, fl: Flow, inputs: seq<Input>)
    requires c.Valid() && Settled(c, fl.jitter)
    requires var emitted := Run(p, mode, c, fl, inputs).emitted;
      && Ascending(Frames(fl.jitter.queue) + emitted)
      && (fl.jitter.waiting && emitted != [] ==> emitted[0].isKeyframe)
    ensures var r := Run(p, mode, c, fl, inputs);
      && r.delivered + Frames(r.flow.jitter.queue) == Frames(fl.jitter.queue) + r.emitted
      && Settled(c, r.flow.jitter) && r.flow.jitter.dropped == fl.jitter.dropped
    decreases |inputs|
  {
    hide Reassembler.Push, Assembled, Ascending, Settled, Frames, Reassembler.Listed;
    if inputs != [] {
      var step := Receive(p, mode, c, fl, inputs[0]);
      var rest := Run(p, mode, c, step.flow, inputs[1..]);
      var q, q' := Frames(fl.jitter.queue), Frames(step.flow.jitter.queue);
      var out := Reassembler.Listed(step.delivered);
      if step.emitted.None? {
        NoneListed(rest.emitted, rest.delivered);
      } else {
        SomeListed(step.emitted.value);
        assert ([step.emitted.value] + rest.emitted)[0] == step.emitted.value;
        PipelineStep(c, fl.jitter, step.emitted.value, inputs[0].pushAt, inputs[0].popAt, rest.emitted);
      }
      hide Receive, Run;
      PipelineFrom(p, mode, c, step.flow, inputs[1..]);
      Regroup(out, rest.delivered, Frames(rest.flow.jitter.queue), q', rest.emitted);
    }
  }

  lemma NoneListed<T>(a: seq<T>, b: seq<T>)
    ensures Reassembler.Listed(None) + a == a && Reassembler.Listed(None) + b == b
  {
  }

  lemma SomeListed<T>(x: T)
    ensures Reassembler.Listed(Some(x)) == [x]
  {
  }

  lemma Regroup<T>(a: seq<T>, b: seq<T>, c: seq<T>, d: seq<T>, e: seq<T>)
    requires b + c == d + e
    ensures a + b + c == a + d + e
  {
    assert a + b + c == a + (b + c);
    assert a + d + e == a + (d + e);
  }

  /** As after construction or StopSession: nothing buffered, both stages waiting for a keyframe. */
  ghost predicate Fresh(fl: Flow) {
    && fl.jitter.queue == [] && fl.jitter.waiting
    && fl.reassembler.waiting && ReassemblerInvariants.Inv(fl.reassembler)
  }

  /**
    The callback sees a prefix of what the reassembler emitted, in order; no frame is dropped for overflow; at
    most maxQueueFrames / 2 - 1 frames (4 as the session configures it) are withheld, so each frame leaves no
    later than that many frames after it. The clock may read anything.
  */
  lemma PipelineIsPrefix(p: Primitives, mode: Arming, c: Config, fl: Flow, inputs: seq<Input>)
    requires c.Valid() && Fresh(fl) && Ascending(Run(p, mode, c, fl, inputs).emitted)
    ensures var r := Run(p, mode, c, fl, inputs);
      && |r.emitted| - Withheld(c) <= |r.delivered| <= |r.emitted|
      && r.delivered == r.emitted[..|r.delivered|]
      && Frames(r.flow.jitter.queue) == r.emitted[|r.delivered|..]
      && r.flow.jitter.dropped == fl.jitter.dropped
  {
    hide Run, Ascending, ReassemblerInvariants.Inv, Reassembler.Run;
    var emitted := Run(p, mode, c, fl, inputs).emitted;
    EmittedByReassembler(p, mode, c, fl, inputs);
    ReassemblerInvariants.RunStartsWithKeyframe(p, mode, fl.reassembler, Datagrams(inputs));
    assert Frames(fl.jitter.queue) + emitted == emitted;
    PipelineFrom(p, mode, c, fl, inputs);
  }

  // ---- Whatever the timestamps ----

  lemma {:induction false} FramesConcat(a: seq<Entry>, b: seq<Entry>)
    ensures Frames(a + b) == Frames(a) + Frames(b)
  {
    hide Frames;
    if a == [] {
      NothingJoined(a, b);
      FramesNone(a);
      NothingJoined(Frames(a), Frames(b));
    } else {
      TailOfJoined(a, b);
      FramesHead(a);
      FramesHead(a + b);
      FramesConcat(a[1..], b);
      Reassociate([a[0].frame], Frames(a[1..]), Frames(b));
    }
  }

  lemma FramesNone(queue: seq<Entry>)
    requires queue == []
    ensures Frames(queue) == []
  {
  }

  lemma FramesInserted(queue: seq<Entry>, e: Entry)
    ensures multiset(Frames(Insert(queue, e))) == multiset(Frames(queue)) + multiset{e.frame}
    ensures |Insert(queue, e)| == |queue| + 1
  {
    hide LowerBound, Frames;
    var at := LowerBound(queue, e.frame.timestampUs);
    FramesConcat(queue[..at], queue[at..]);
    assert queue == queue[..at] + queue[at..];
    FramesConcat(queue[..at] + [e], queue[at..]);
    FramesSnoc(queue[..at], e);
  }

  /** One assembled frame, sorted in wherever it belongs: nothing overflows and nothing is lost. */
  lemma AssembledConserves(c: Config, js: JitterBuffer.State, f: VideoFrame, pushAt: int, popAt: int)
    requires c.Valid() && Settled(c, js) && (js.waiting ==> f.isKeyframe)
    ensures var d := Assembled(c, js, f, pushAt, popAt);
      && Settled(c, d.jitter) && !d.jitter.waiting && d.jitter.dropped == js.dropped
      && multiset(Reassembler.Listed(d.frame)) + multiset(Frames(d.jitter.queue))
         == multiset(Frames(js.queue)) + multiset{f}
  {
    hide Insert, ElapsedMs, Frames;
    assert js.queue[Overflow(c, |js.queue|)..] == js.queue;
    FramesInserted(js.queue, Entry(f, pushAt));
    var queue := Insert(js.queue, Entry(f, pushAt));
    FramesHead(queue);
    var head := [queue[0].frame];
    assert multiset(head + Frames(queue[1..])) == multiset(head) + multiset(Frames(queue[1..]));
  }

  lemma {:induction false} PipelineConservesFrom(p: Primitives, mode: Arming, c: Config, fl: Flow, inputs: seq<Input>)
    requires c.Valid() && Settled(c, fl.jitter)
    requires var emitted := Run(p, mode, c, fl, inputs).emitted;
      fl.jitter.waiting && emitted != [] ==> emitted[0].isKeyframe
    ensures var r := Run(p, mode, c, fl, inputs);
      && multiset(r.delivered) + multiset(Frames(r.flow.jitter.queue))
         == multiset(Frames(fl.jitter.queue)) + multiset(r.emitted)
      && Settled(c, r.flow.jitter) && r.flow.jitter.dropped == fl.jitter.dropped
    decreases |inputs|
  {
    hide Reassembler.Push, Assembled, Settled, Frames, Reassembler.Listed;
    if inputs != [] {
      var step := Receive(p, mode, c, fl, inputs[0]);
      var rest := Run(p, mode, c, step.flow, inputs[1..]);
      var out, into := Reassembler.Listed(step.delivered), Reassembler.Listed(step.emitted);
      if step.emitted.None? {
        NoneListed(rest.emitted, rest.delivered);
      } else {
        SomeListed(step.emitted.value);
        assert ([step.emitted.value] + rest.emitted)[0] == step.emitted.value;
        AssembledConserves(c, fl.jitter, step.emitted.value, inputs[0].pushAt, inputs[0].popAt);
      }
      Balanced(step, fl);
      hide Receive, Run;
      PipelineConservesFrom(p, mode, c, step.flow, inputs[1..]);
      Chained(out, rest.delivered, Frames(step.flow.jitter.queue), Frames(rest.flow.jitter.queue),
              Frames(fl.jitter.queue), into, rest.emitted);
    }
  }

  /** Two balances in a row. */
  lemma Chained<T>(out: seq<T>, more: seq<T>, middle: seq<T>, last: seq<T>, first: seq<T>, into: seq<T>, rest: seq<T>)
    requires multiset(out) + multiset(middle) == multiset(first) + multiset(into)
    requires multiset(more) + multiset(last) == multiset(middle) + multiset(rest)
    ensures multiset(out + more) + multiset(last) == multiset(first) + multiset(into + rest)
  {
    ChainedCounts(multiset(out), multiset(more), multiset(middle), multiset(last), multiset(first), multiset(into),
                  multiset(rest));
  }

  lemma ChainedCounts<T>(out: multiset<T>, more: multiset<T>, middle: multiset<T>, last: multiset<T>,
                         first: multiset<T>, into: multiset<T>, rest: multiset<T>)
    requires out + middle == first + into && more + last == middle + rest
    ensures out + more + last == first + (into + rest)
  {
    forall x ensures (out + more + last)[x] == (first + (into + rest))[x] {
      assert (out + middle)[x] == (first + into)[x] && (more + last)[x] == (middle + rest)[x];
    }
  }

  /** What one step takes in and gives out. */
  lemma Balanced(step: Received, fl: Flow)
    requires step.emitted.None? ==> step.delivered.None? && step.flow.jitter == fl.jitter
    requires step.emitted.Some? ==>
      multiset(Reassembler.Listed(step.delivered)) + multiset(Frames(step.flow.jitter.queue))
        == multiset(Frames(fl.jitter.queue)) + multiset{step.emitted.value}
    ensures multiset(Reassembler.Listed(step.delivered)) + multiset(Frames(step.flow.jitter.queue))
         == multiset(Frames(fl.jitter.queue)) + multiset(Reassembler.Listed(step.emitted))
  {
    hide Frames;
    if step.emitted.Some? { assert Reassembler.Listed(step.emitted) == [step.emitted.value]; }
  }

  /**
    Whatever the timestamps and the clock: nothing overflows, no emitted frame is lost or doubled on the way to the
    callback, and at most maxQueueFrames / 2 - 1 are withheld.
  */
  lemma PipelineConserves(p: Primitives, mode: Arming, c: Config, fl: Flow, inputs: seq<Input>)
    requires c.Valid() && Fresh(fl)
    ensures var r := Run(p, mode, c, fl, inputs);
      && multiset(r.delivered) + multiset(Frames(r.flow.jitter.queue)) == multiset(r.emitted)
      && |r.flow.jitter.queue| <= Withheld(c) && r.flow.jitter.dropped == fl.jitter.dropped
  {
    hide Run, ReassemblerInvariants.Inv, Reassembler.Run;
    EmittedByReassembler(p, mode, c, fl, inputs);
    ReassemblerInvariants.RunStartsWithKeyframe(p, mode, fl.reassembler, Datagrams(inputs));
    PipelineConservesFrom(p, mode, c, fl, inputs);
  }

  lemma SessionWithholdsFour()
    ensures Withheld(SESSION_CONFIG) == 4 && SESSION_CONFIG.Valid()
  {
  }

  /**
    In a new session, the first keyframe reaches the callback with the datagram that completes it exactly when at
    least 20 ms pass between push and poll; a frame before it never does, and asks for one.
  */
  lemma FirstFrameWaits(f: VideoFrame, pushAt: int, popAt: int)
    ensures SESSION_CONFIG.Valid()
    ensures var d := Assembled(SESSION_CONFIG, Initial(SESSION_CONFIG), f, pushAt, popAt);
      && (d.frame == Some(f) <==> f.isKeyframe && popAt - pushAt >= 20_000_000)
      && (d.frame == None <==> d.frame != Some(f))
      && (d.frame == None ==>
            d.jitter == Initial(SESSION_CONFIG).(queue := if f.isKeyframe then [Entry(f, pushAt)] else [],
                                                 waiting := !f.isKeyframe))
  {
    if f.isKeyframe {
      assert Insert([], Entry(f, pushAt)) == [Entry(f, pushAt)];
      var s := AfterPush(SESSION_CONFIG, Initial(SESSION_CONFIG), f, pushAt).state;
      assert s.queue == [Entry(f, pushAt)];
      ReleasedIff(SESSION_CONFIG, s, popAt);
    }
  }

  // ---- Stopped and started again ----

  /** As StopSession leaves it: nothing buffered, nothing remembered but an id that is not insisted on, no delay. */
  ghost predicate StartsOver(fl: Flow) {
    && fl.jitter == JitterBuffer.State([], 20, fl.jitter.dropped, true)
    && fl.reassembler == Reassembler.INITIAL.(expectedSession := fl.reassembler.expectedSession)
  }

  /** Apart from the drop count. */
  ghost predicate SameQueue(a: JitterBuffer.State, b: JitterBuffer.State) {
    a.(dropped := b.dropped) == b
  }

  lemma AssembledAlike(c: Config, a: JitterBuffer.State, b: JitterBuffer.State, f: VideoFrame, pushAt: int, popAt: int)
    requires c.Valid() && SameQueue(a, b)
    ensures var d, e := Assembled(c, a, f, pushAt, popAt), Assembled(c, b, f, pushAt, popAt);
      d.frame == e.frame && SameQueue(d.jitter, e.jitter)
  {
    hide Insert, ElapsedMs;
  }

  lemma {:induction false} FlowsAlike(p: Primitives, mode: Arming, c: Config, x: Flow, y: Flow, inputs: seq<Input>)
    requires c.Valid() && SameQueue(x.jitter, y.jitter) && ReassemblerInvariants.Alike(x.reassembler, y.reassembler)
    ensures var r, t := Run(p, mode, c, x, inputs), Run(p, mode, c, y, inputs);
      r.emitted == t.emitted && r.delivered == t.delivered
    decreases |inputs|
  {
    hide Reassembler.Push, Assembled, SameQueue, ReassemblerInvariants.Alike, Reassembler.Listed;
    if inputs != [] {
      var i := inputs[0];
      ReassemblerInvariants.PushAlike(p, mode, x.reassembler, y.reassembler, i.datagram);
      var emitted := Reassembler.Push(p, mode, x.reassembler, i.datagram).effects.frame;
      if emitted.Some? { AssembledAlike(c, x.jitter, y.jitter, emitted.value, i.pushAt, i.popAt); }
      FlowsAlike(p, mode, c, Receive(p, mode, c, x, i).flow, Receive(p, mode, c, y, i).flow, inputs[1..]);
    }
  }

  /** Every run after a stop emits and delivers what a new session does. */
  lemma StoppedIsAnew(p: Primitives, mode: Arming, fl: Flow, inputs: seq<Input>)
    requires StartsOver(fl)
    ensures SESSION_CONFIG.Valid() && Fresh(fl)
    ensures var r := Run(p, mode, SESSION_CONFIG, fl, inputs);
            var t := Run(p, mode, SESSION_CONFIG, Flow(Reassembler.INITIAL, Initial(SESSION_CONFIG)), inputs);
      r.emitted == t.emitted && r.delivered == t.delivered
  {
    hide Run;
    FlowsAlike(p, mode, SESSION_CONFIG, fl, Flow(Reassembler.INITIAL, Initial(SESSION_CONFIG)), inputs);
  }

  // ---- From the sender's frames to the callback ----

  /** Frames of one stream in increasing id order have increasing timestamps if the stream does. */
  lemma AscendingByIds(sent: seq<VideoFrame>, emitted: seq<VideoFrame>)
    requires Ascending(sent) && ReassemblerInvariants.StrictlyIncreasing(sent)
    requires ReassemblerInvariants.StrictlyIncreasing(emitted) && forall f :: f in emitted ==> f in sent
    ensures Ascending(emitted)
  {
    forall i, j | 0 <= i < j < |emitted| ensures emitted[i].timestampUs < emitted[j].timestampUs {
      assert emitted[i] in sent && emitted[j] in sent;
      var a :| 0 <= a < |sent| && sent[a] == emitted[i];
      var b :| 0 <= b < |sent| && sent[b] == emitted[j];
      assert sent[a].frameId < sent[b].frameId;
    }
  }

  /**
    The whole path. For one sender's video session with increasing timestamps, any datagrams of which only
    genuine ones are admitted, and any clock: the frame callback receives sent frames only, unchanged, in order,
    none twice, starting with a keyframe, and at most four behind the reassembler.
  */
  lemma SessionDeliversSentFrames(p: Primitives, sessionId: uint32, tx: Arming, rx: Arming, sent: seq<VideoFrame>,
                                  sequence: uint32, inputs: seq<Input>)
    requires p.Laws() && Integrity.Compatible(tx, rx) && Integrity.SendableStream(tx, sent) && Ascending(sent)
    requires Integrity.OnlyGenuineAdmitted(p, rx, Integrity.Sent(p, sessionId, tx, sent, sequence), Datagrams(inputs))
    ensures SESSION_CONFIG.Valid()
    ensures var r := Run(p, rx, SESSION_CONFIG, Flow(Reassembler.INITIAL, Initial(SESSION_CONFIG)), inputs);
      && (forall f :: f in r.delivered ==> f in sent)
      && ReassemblerInvariants.StrictlyIncreasing(r.delivered)
      && (r.delivered != [] ==> r.delivered[0].isKeyframe)
      && |r.delivered| <= |r.emitted| <= |r.delivered| + 4 && r.delivered == r.emitted[..|r.delivered|]
      && r.flow.jitter.dropped == 0
  {
    hide Run, Reassembler.Run, Integrity.OnlyGenuineAdmitted, Integrity.SendableStream, Integrity.Sent, Ascending;
    var fl := Flow(Reassembler.INITIAL, Initial(SESSION_CONFIG));
    var r := Run(p, rx, SESSION_CONFIG, fl, inputs);
    EmittedByReassembler(p, rx, SESSION_CONFIG, fl, inputs);
    Integrity.EndToEndIntegrity(p, sessionId, tx, rx, sent, sequence, Reassembler.INITIAL, Datagrams(inputs));
    assert ReassemblerInvariants.StrictlyIncreasing(sent) by { Integrity.StreamIncreases(tx, sent); }
    AscendingByIds(sent, r.emitted);
    assert Fresh(fl);
    PipelineIsPrefix(p, rx, SESSION_CONFIG, fl, inputs);
    SessionWithholdsFour();
    ReassemblerInvariants.RunStartsWithKeyframe(p, rx, fl.reassembler, Datagrams(inputs));
    forall f | f in r.delivered ensures f in sent {
      assert f in r.emitted;
    }
  }

  // ---- The mutable session ----

  datatype SessionState = IDLE | PAIRING | CONNECTING | STREAMING | PAUSED | DISCONNECTED | ERROR_STATE

  class VeyraSession {
    var state: SessionState
    const reassembler: Reassembler.FrameReassembler
    const jitterBuffer: AdaptiveJitterBuffer

    ghost predicate Valid()
      reads this, reassembler, jitterBuffer
    {
      && reassembler.Valid() && jitterBuffer.Valid() && jitterBuffer.config == SESSION_CONFIG
      && jitterBuffer.currentTargetDelayMs == 20 // nothing reports network statistics to a session
    }

    constructor (p: Primitives)
      ensures Valid() && state == IDLE && reassembler.primitives == p
      ensures FlowValue() == Flow(Reassembler.INITIAL, Initial(SESSION_CONFIG))
      ensures fresh(reassembler) && fresh(reassembler.replayFilter) && fresh(jitterBuffer)
    {
      state := IDLE;
      reassembler := new Reassembler.FrameReassembler(p);
      jitterBuffer := new AdaptiveJitterBuffer(SESSION_CONFIG);
    }

    function FlowValue(): Flow
      reads reassembler, reassembler.replayFilter, jitterBuffer
    {
      Flow(reassembler.Value(), jitterBuffer.Value())
    }

    /** A transport's packet callback; the result is what the frame callback received. */
    method OnPacketReceived(data: seq<byte>, pushAt: int, popAt: int) returns (delivered: Option<VideoFrame>)
      requires Valid()
      modifies reassembler, reassembler.replayFilter, jitterBuffer
      ensures Valid() && reassembler.crypto == old(reassembler.crypto)
      ensures var r := Receive(reassembler.primitives, old(reassembler.Mode()), SESSION_CONFIG, old(FlowValue()),
                               Input(data, pushAt, popAt));
        FlowValue() == r.flow && delivered == r.delivered
    {
      var effects := reassembler.PushPacket(data);
      if effects.frame.None? {
        return None;
      }
      delivered := OnAssembledFrameReady(effects.frame.value, pushAt, popAt);
    }

    method OnAssembledFrameReady(frame: VideoFrame, pushAt: int, popAt: int) returns (ready: Option<VideoFrame>)
      requires jitterBuffer.Valid() && jitterBuffer.config == SESSION_CONFIG
      modifies jitterBuffer
      ensures jitterBuffer.Valid()
      ensures Delivery(jitterBuffer.Value(), ready)
           == Assembled(SESSION_CONFIG, old(jitterBuffer.Value()), frame, pushAt, popAt)
    {
      var idrRequested := jitterBuffer.PushFrame(frame, pushAt);
      ready := jitterBuffer.PopNextFrame(popAt);
    }

    /** A running session is stopped: both stages start over, the key stays. */
    method StopSession()
      requires Valid()
      modifies this`state, reassembler, reassembler.replayFilter, jitterBuffer
      ensures Valid()
      ensures old(state) in {IDLE, DISCONNECTED} ==> FlowValue() == old(FlowValue()) && state == old(state)
      ensures old(state) !in {IDLE, DISCONNECTED} ==> StartsOver(FlowValue()) && state == DISCONNECTED
      ensures reassembler.Mode() == old(reassembler.Mode())
    {
      if state == IDLE || state == DISCONNECTED {
        return;
      }
      state := DISCONNECTED;
      jitterBuffer.Flush();
      reassembler.Reset();
    }
  }
}
