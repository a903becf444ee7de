/**
  AdaptiveJitterBuffer: a queue sorted by timestamp, bounded, and released by age or fill level.
  The clock is an input, in nanoseconds; float statistics are reals.
*/
module JitterBuffer {
  import opened Wrappers
  import opened Bytes
  import opened Packetizer

  datatype Config = Config(minDelayMs: uint32, maxDelayMs: uint32, maxQueueFrames: uint32)
  {
    /** std::clamp and the overflow loop need this of the configuration. */
    predicate Valid() { minDelayMs <= maxDelayMs && maxQueueFrames >= 1 }
  }

  datatype Entry = Entry(frame: VideoFrame, arrival: int)

  datatype State = State(queue: seq<Entry>, targetDelayMs: uint32, dropped: nat, waiting: bool)

  function Initial(c: Config): State {
    State([], c.minDelayMs, 0, true)
  }

  ghost predicate Sorted(queue: seq<Entry>) {
    forall i, j :: 0 <= i < j < |queue| ==> queue[i].frame.timestampUs <= queue[j].frame.timestampUs
  }

  /** What every call keeps. */
  ghost predicate Inv(c: Config, s: State) {
    && Sorted(s.queue)
    && |s.queue| <= c.maxQueueFrames
    && c.minDelayMs <= s.targetDelayMs <= c.maxDelayMs
    && (s.waiting ==> s.queue == [])
  }

  /** std::lower_bound: the first position whose timestamp is not below ts. */
  function LowerBound(queue: seq<Entry>, ts: uint64): (at: nat)
    ensures at <= |queue|
    ensures forall i :: 0 <= i < at ==> queue[i].frame.timestampUs < ts
    ensures at < |queue| ==> queue[at].frame.timestampUs >= ts
  {
    if queue == [] || queue[0].frame.timestampUs >= ts then 0 else 1 + LowerBound(queue[1..], ts)
  }

  function Insert(queue: seq<Entry>, e: Entry): seq<Entry> {
    var at := LowerBound(queue, e.frame.timestampUs);
    queue[..at] + [e] + queue[at..]
  }

  lemma InsertCounts<T>(queue: seq<T>, at: nat, e: T)
    requires at <= |queue|
    ensures multiset(queue[..at] + [e] + queue[at..]) == multiset(queue) + multiset{e}
  {
    assert queue == queue[..at] + queue[at..];
  }

  lemma InsertSorted(queue: seq<Entry>, e: Entry)
    requires Sorted(queue)
    ensures Sorted(Insert(queue, e))
  {
    var at := LowerBound(queue, e.frame.timestampUs);
    var after := Insert(queue, e);
    forall i, j | 0 <= i < j < |after|
      ensures after[i].frame.timestampUs <= after[j].frame.timestampUs
    {
      if i < at {
        assert after[i] == queue[i];
        if j > at { assert after[j] == queue[j - 1]; }
        if j < at { assert after[j] == queue[j]; }
      } else {
        assert after[j] == queue[j - 1];
        if i > at { assert after[i] == queue[i - 1]; } else { assert queue[at] == queue[i]; }
      }
    }
  }

  lemma InsertNewest(queue: seq<Entry>, e: Entry)
    requires forall i :: 0 <= i < |queue| ==> queue[i].frame.timestampUs < e.frame.timestampUs
    ensures Insert(queue, e) == queue + [e]
  {
  }

  /** How many of the oldest entries overflow: room is made for one more. */
  function Overflow(c: Config, size: nat): nat
    requires c.Valid()
  {
    if size >= c.maxQueueFrames then size - c.maxQueueFrames + 1 else 0
  }

  datatype Pushed = Pushed(state: State, idrRequested: bool, evicted: seq<Entry>)

  function AfterPush(c: Config, s: State, f: VideoFrame, now: int): Pushed
    requires c.Valid()
  {
    if s.waiting && !f.isKeyframe then Pushed(s, true, [])
    else
      var n := Overflow(c, |s.queue|);
      Pushed(s.(queue := Insert(s.queue[n..], Entry(f, now)), dropped := s.dropped + n, waiting := false),
             false, s.queue[..n])
  }

  /** duration_cast to milliseconds truncates toward zero. */
  function ElapsedMs(from: int, to: int): int {
    if to >= from then (to - from) / 1_000_000 else -((from - to) / 1_000_000)
  }

  predicate Due(c: Config, s: State, now: int)
    requires s.queue != []
  {
    ElapsedMs(s.queue[0].arrival, now) >= s.targetDelayMs || |s.queue| >= c.maxQueueFrames / 2
  }

  datatype Popped = Popped(state: State, entry: Option<Entry>)

  function AfterPop(c: Config, s: State, now: int): Popped {
    if s.queue == [] || !Due(c, s, now) then Popped(s, None)
    else Popped(s.(queue := s.queue[1..]), Some(s.queue[0]))
  }

  function Clamp(x: real, lo: real, hi: real): real {
    if x < lo then lo else if hi < x then hi else x
  }

  function AfterStats(c: Config, s: State, jitterMs: real, lossRate: real): State
    requires c.Valid()
  {
    var wanted := c.minDelayMs as real + 2.0 * jitterMs + lossRate * 20.0;
    var target := Clamp(wanted, c.minDelayMs as real, c.maxDelayMs as real);
    s.(targetDelayMs := target.Floor)
  }

  function AfterFlush(s: State): State {
    s.(queue := [], waiting := true)
  }

  // ---- Runs of calls ----

  datatype Op =
    | Push(frame: VideoFrame, now: int)
    | Pop(now: int)
    | Stats(jitterMs: real, lossRate: real)
    | FlushAll

  /** Everything that ever happened to admitted frames. */
  datatype History = History(
    state: State,
    admitted: seq<Entry>,
    popped: seq<Entry>,
    evicted: seq<Entry>,
    flushed: seq<Entry>)

  function Start(c: Config): History {
    History(Initial(c), [], [], [], [])
  }

  function Apply(c: Config, h: History, op: Op): History
    requires c.Valid()
  {
    match op
    case Push(f, now) =>
      var r := AfterPush(c, h.state, f, now);
      h.(state := r.state, evicted := h.evicted + r.evicted,
         admitted := if r.idrRequested then h.admitted else h.admitted + [Entry(f, now)])
    case Pop(now) =>
      var r := AfterPop(c, h.state, now);
      h.(state := r.state, popped := if r.entry.Some? then h.popped + [r.entry.value] else h.popped)
    case Stats(j, l) => h.(state := AfterStats(c, h.state, j, l))
    case FlushAll => h.(state := AfterFlush(h.state), flushed := h.flushed + h.state.queue)
  }

  function ApplyAll(c: Config, ops: seq<Op>): History
    requires c.Valid()
  {
    if ops == [] then Start(c) else Apply(c, ApplyAll(c, ops[..|ops| - 1]), ops[|ops| - 1])
  }

  ghost predicate Conserved(h: History) {
    && multiset(h.admitted)
       == multiset(h.popped) + multiset(h.state.queue) + multiset(h.evicted) + multiset(h.flushed)
    && h.state.dropped == |h.evicted|
  }

  lemma PushKeepsInv(c: Config, s: State, f: VideoFrame, now: int)
    requires c.Valid() && Inv(c, s)
    ensures Inv(c, AfterPush(c, s, f, now).state)
  {
    hide LowerBound;
    if !(s.waiting && !f.isKeyframe) {
      InsertSorted(s.queue[Overflow(c, |s.queue|)..], Entry(f, now));
    }
    hide Sorted;
  }

  lemma ApplyKeepsInv(c: Config, h: History, op: Op)
    requires c.Valid() && Inv(c, h.state)
    ensures Inv(c, Apply(c, h, op).state)
  {
    hide AfterPush;
    match op
    case Push(f, now) => PushKeepsInv(c, h.state, f, now);
    case Pop(now) =>
    case Stats(j, l) =>
    case FlushAll =>
  }

  lemma Counts<T>(a: seq<T>, n: nat)
    requires n <= |a|
    ensures multiset(a[..n]) + multiset(a[n..]) == multiset(a)
  {
    assert a == a[..n] + a[n..];
  }

  lemma PushCounts(c: Config, s: State, f: VideoFrame, now: int)
    requires c.Valid()
    ensures var r := AfterPush(c, s, f, now);
      && multiset(r.state.queue) + multiset(r.evicted)
         == multiset(s.queue) + (if r.idrRequested then multiset{} else multiset{Entry(f, now)})
      && r.state.dropped == s.dropped + |r.evicted|
  {
    hide LowerBound;
    if !(s.waiting && !f.isKeyframe) {
      var n := Overflow(c, |s.queue|);
      Counts(s.queue, n);
      InsertCounts(s.queue[n..], LowerBound(s.queue[n..], f.timestampUs), Entry(f, now));
    }
  }

  lemma PopCounts(c: Config, s: State, now: int)
    ensures var r := AfterPop(c, s, now);
      && multiset(r.state.queue) + (if r.entry.Some? then multiset{r.entry.value} else multiset{}) == multiset(s.queue)
      && r.state.dropped == s.dropped
  {
    hide Due;
    if s.queue != [] {
      Counts(s.queue, 1);
      assert s.queue[..1] == [s.queue[0]];
    }
  }

  lemma Rebalance<T>(admitted: multiset<T>, popped: multiset<T>, queued: multiset<T>, evicted: multiset<T>,
                     flushed: multiset<T>, queued': multiset<T>, out: multiset<T>, added: multiset<T>)
    requires admitted == popped + queued + evicted + flushed && queued' + out == queued + added
    ensures admitted + added == popped + queued' + (evicted + out) + flushed
    ensures admitted + added == (popped + out) + queued' + evicted + flushed
    ensures admitted + added == popped + queued' + evicted + (flushed + out)
  {
    forall x ensures (admitted + added)[x] == (popped + queued' + (evicted + out) + flushed)[x] {
      assert (queued' + out)[x] == (queued + added)[x];
    }
    assert popped + queued' + (evicted + out) + flushed == (popped + out) + queued' + evicted + flushed;
  }

  lemma ApplyConserves(c: Config, h: History, op: Op)
    requires c.Valid() && Conserved(h)
    ensures Conserved(Apply(c, h, op))
  {
    hide AfterPush, AfterPop, Clamp;
    var a, p, q, e, f := multiset(h.admitted), multiset(h.popped), multiset(h.state.queue), multiset(h.evicted),
                         multiset(h.flushed);
    match op
    case Push(frame, now) =>
      PushCounts(c, h.state, frame, now);
      var r := AfterPush(c, h.state, frame, now);
      Rebalance(a, p, q, e, f, multiset(r.state.queue), multiset(r.evicted),
                if r.idrRequested then multiset{} else multiset{Entry(frame, now)});
    case Pop(now) =>
      PopCounts(c, h.state, now);
      var r := AfterPop(c, h.state, now);
      Rebalance(a, p, q, e, f, multiset(r.state.queue),
                if r.entry.Some? then multiset{r.entry.value} else multiset{}, multiset{});
    case Stats(j, l) =>
    case FlushAll =>
      Rebalance(a, p, q, e, f, multiset{}, q, multiset{});
  }

  /** Sorted, bounded, delay within its limits, and no admitted frame lost or invented, over every run of calls. */
  lemma {:induction false} InvAlways(c: Config, ops: seq<Op>)
    requires c.Valid()
    ensures Inv(c, ApplyAll(c, ops).state) && Conserved(ApplyAll(c, ops))
  {
    hide Inv, Conserved, Apply;
    if ops == [] {
      StartKeeps(c);
    } else {
      InvAlways(c, ops[..|ops| - 1]);
      ApplyKeepsInv(c, ApplyAll(c, ops[..|ops| - 1]), ops[|ops| - 1]);
      ApplyConserves(c, ApplyAll(c, ops[..|ops| - 1]), ops[|ops| - 1]);
    }
  }

  lemma StartKeeps(c: Config)
    requires c.Valid()
    ensures Inv(c, Start(c).state) && Conserved(Start(c))
  {
  }

  /** Whatever leaves - popped or dropped on overflow - is no newer than anything that stays. */
  lemma LeavesOldestFirst(c: Config, ops: seq<Op>, op: Op)
    requires c.Valid()
    ensures var h := ApplyAll(c, ops);
      && (op.Pop? ==> var r := AfterPop(c, h.state, op.now);
            r.entry.Some? ==> forall e :: e in h.state.queue ==> r.entry.value.frame.timestampUs <= e.frame.timestampUs)
      && (op.Push? ==> var r := AfterPush(c, h.state, op.frame, op.now);
            forall x, e :: x in r.evicted && e in h.state.queue[|r.evicted|..] ==>
              x.frame.timestampUs <= e.frame.timestampUs)
  {
    InvAlways(c, ops);
  }

  /** However the delay was adapted, a head frame older than the configured maximum leaves at the next poll. */
  lemma AgedFrameLeaves(c: Config, ops: seq<Op>, now: int)
    requires c.Valid()
    ensures var s := ApplyAll(c, ops).state;
      s.queue != [] && ElapsedMs(s.queue[0].arrival, now) >= c.maxDelayMs ==>
        AfterPop(c, s, now).entry == Some(s.queue[0])
  {
    hide ApplyAll;
    InvAlways(c, ops);
  }

  // ---- When a frame is released, and what the delay is ----

  /**
    The head leaves at a poll exactly when it has been held for the target delay, to the nanosecond, or when the queue
    is half full (the cap halved and rounded down); otherwise nothing changes. A target of 0 tolerates a clock that
    went back by less than a millisecond.
  */
  lemma ReleasedIff(c: Config, s: State, now: int)
    requires s.queue != []
    ensures var r := AfterPop(c, s, now);
            var held := now - s.queue[0].arrival;
      && (r.entry.Some? <==>
            || (if s.targetDelayMs == 0 then held > -1_000_000 else held >= s.targetDelayMs * 1_000_000)
            || 2 * |s.queue| + 1 >= c.maxQueueFrames)
      && r == (if r.entry.Some? then Popped(s.(queue := s.queue[1..]), Some(s.queue[0])) else Popped(s, None))
  {
  }

  lemma NothingReleased(c: Config, s: State, now: int)
    requires s.queue == []
    ensures AfterPop(c, s, now) == Popped(s, None)
  {
  }

  /**
    Reported statistics put the target within its limits, and bring it to k milliseconds or more exactly when the
    minimum plus twice the jitter plus twenty times the loss rate comes to k: so it grows with both.
  */
  lemma TargetReaches(c: Config, s: State, jitterMs: real, lossRate: real, k: nat)
    requires c.Valid() && c.minDelayMs < k <= c.maxDelayMs
    ensures var t := AfterStats(c, s, jitterMs, lossRate);
      && (t.targetDelayMs >= k <==> c.minDelayMs as real + 2.0 * jitterMs + 20.0 * lossRate >= k as real)
      && c.minDelayMs <= t.targetDelayMs <= c.maxDelayMs
      && t == s.(targetDelayMs := t.targetDelayMs)
  {
  }

  lemma TargetGrows(c: Config, s: State, t: State, jitterMs: real, lossRate: real, jitterMs': real, lossRate': real)
    requires c.Valid() && jitterMs <= jitterMs' && lossRate <= lossRate'
    ensures AfterStats(c, s, jitterMs, lossRate).targetDelayMs <= AfterStats(c, t, jitterMs', lossRate').targetDelayMs
  {
    var k := AfterStats(c, s, jitterMs, lossRate).targetDelayMs;
    if c.minDelayMs < k {
      TargetReaches(c, s, jitterMs, lossRate, k);
      TargetReaches(c, t, jitterMs', lossRate', k);
    }
  }

  ghost predicate NoStats(ops: seq<Op>) {
    forall i :: 0 <= i < |ops| ==> !ops[i].Stats?
  }

  /** Before the first statistics the target is the minimum; after that it is that of the last ones. */
  lemma {:induction false} TargetOverRuns(c: Config, ops: seq<Op>, at: nat)
    requires c.Valid() && at <= |ops| && NoStats(ops[at..]) && (at > 0 ==> ops[at - 1].Stats?)
    ensures ApplyAll(c, ops).state.targetDelayMs ==
      if at == 0 then c.minDelayMs
      else AfterStats(c, Initial(c), ops[at - 1].jitterMs, ops[at - 1].lossRate).targetDelayMs
  {
    hide Clamp, LowerBound, Due, Overflow;
    if at < |ops| {
      var rest, last := ops[..|ops| - 1], ops[|ops| - 1];
      assert last == ops[at..][|ops| - 1 - at] && !last.Stats?;
      assert rest[at..] == ops[at..|ops| - 1];
      assert forall i :: 0 <= i < |rest[at..]| ==> rest[at..][i] == ops[at..][i];
      TargetOverRuns(c, rest, at);
    }
  }

  // ---- What a push does ----

  /** A keyframe was pushed, and nothing flushed since. */
  predicate KeyframeSince(ops: seq<Op>) {
    if ops == [] then false
    else
      match ops[|ops| - 1]
      case FlushAll => false
      case Push(f, _) => f.isKeyframe || KeyframeSince(ops[..|ops| - 1])
      case _ => KeyframeSince(ops[..|ops| - 1])
  }

  lemma {:induction false} WaitingIff(c: Config, ops: seq<Op>)
    requires c.Valid()
    ensures ApplyAll(c, ops).state.waiting <==> !KeyframeSince(ops)
  {
    hide LowerBound, Due, Overflow, Clamp;
    if ops != [] { WaitingIff(c, ops[..|ops| - 1]); }
  }

  /**
    After any run: until a keyframe is pushed, any other frame is answered by a request for one and leaves no trace.
    Otherwise it is queued with the time of the push, behind all earlier timestamps and in front of all others, and
    the head is dropped for it exactly when the queue is full.
  */
  lemma PushOutcome(c: Config, ops: seq<Op>, f: VideoFrame, now: int)
    returns (at: nat)
    requires c.Valid()
    ensures var s := ApplyAll(c, ops).state;
            var r := AfterPush(c, s, f, now);
      && (r.idrRequested <==> !f.isKeyframe && !KeyframeSince(ops))
      && (r.idrRequested ==> r.state == s && r.evicted == [])
      && (!r.idrRequested ==>
            var kept := if |s.queue| < c.maxQueueFrames then s.queue else s.queue[1..];
            && r.evicted == (if |s.queue| < c.maxQueueFrames then [] else [s.queue[0]])
            && at <= |kept| && r.state.queue == kept[..at] + [Entry(f, now)] + kept[at..]
            && (forall i :: 0 <= i < |kept| ==> (kept[i].frame.timestampUs < f.timestampUs <==> i < at))
            && r.state.dropped == s.dropped + |r.evicted| && !r.state.waiting
            && r.state.targetDelayMs == s.targetDelayMs)
  {
    hide ApplyAll, KeyframeSince, LowerBound;
    InvAlways(c, ops);
    WaitingIff(c, ops);
    var s := ApplyAll(c, ops).state;
    at := PushInto(c, s, f, now);
  }

  lemma PushInto(c: Config, s: State, f: VideoFrame, now: int)
    returns (at: nat)
    requires c.Valid() && Inv(c, s)
    ensures var r := AfterPush(c, s, f, now);
      && (r.idrRequested <==> !f.isKeyframe && s.waiting)
      && (r.idrRequested ==> r.state == s && r.evicted == [])
      && (!r.idrRequested ==>
            var kept := if |s.queue| < c.maxQueueFrames then s.queue else s.queue[1..];
            && r.evicted == (if |s.queue| < c.maxQueueFrames then [] else [s.queue[0]])
            && at <= |kept| && r.state.queue == kept[..at] + [Entry(f, now)] + kept[at..]
            && (forall i :: 0 <= i < |kept| ==> (kept[i].frame.timestampUs < f.timestampUs <==> i < at))
            && r.state.dropped == s.dropped + |r.evicted| && !r.state.waiting
            && r.state.targetDelayMs == s.targetDelayMs)
  {
    var kept := if |s.queue| < c.maxQueueFrames then s.queue else s.queue[1..];
    at := Boundary(kept, f.timestampUs);
    hide LowerBound, Sorted;
    assert kept == s.queue[Overflow(c, |s.queue|)..];
  }

  lemma Boundary(queue: seq<Entry>, ts: uint64) returns (at: nat)
    requires Sorted(queue)
    ensures at == LowerBound(queue, ts) <= |queue|
    ensures forall i :: 0 <= i < |queue| ==> (queue[i].frame.timestampUs < ts <==> i < at)
  {
    at := LowerBound(queue, ts);
    hide LowerBound;
    forall i | at <= i < |queue| ensures queue[i].frame.timestampUs >= ts {
      assert queue[at].frame.timestampUs <= queue[i].frame.timestampUs;
    }
  }

  // ---- The mutable buffer ----

  class AdaptiveJitterBuffer {
    const config: Config
    var queue: seq<Entry>
    var currentTargetDelayMs: uint32
    var lastEmittedFrameId: uint32
    var droppedFrames: nat
    var waitingForInitialKeyframe: bool

    ghost predicate Valid()
      reads this
    {
      config.Valid() && Inv(config, Value())
    }

    constructor (config: Config)
      requires config.Valid()
      ensures Valid() && this.config == config && Value() == Initial(config)
    {
      this.config := config;
      queue, currentTargetDelayMs, lastEmittedFrameId := [], config.minDelayMs, 0;
      droppedFrames, waitingForInitialKeyframe := 0, true;
    }

    function Value(): State
      reads this
    {
      State(queue, currentTargetDelayMs, droppedFrames, waitingForInitialKeyframe)
    }

    /** The result says whether the IDR callback was made. */
    method PushFrame(frame: VideoFrame, now: int) returns (idrRequested: bool)
      requires Valid()
      modifies this
      ensures Valid() && lastEmittedFrameId == old(lastEmittedFrameId)
      ensures var r := AfterPush(config, old(Value()), frame, now);
        Value() == r.state && idrRequested == r.idrRequested
    {
      if waitingForInitialKeyframe {
        if !frame.isKeyframe {
          return true;
        }
        waitingForInitialKeyframe := false;
      }
      PushKeepsInv(config, old(Value()), frame, now);
      hide Sorted, LowerBound;
      DropOldest();
      var at := LowerBound(queue, frame.timestampUs);
      queue := queue[..at] + [Entry(frame, now)] + queue[at..];
      idrRequested := false;
    }

    /** Backpressure: while the queue is full, the oldest frame goes. */
    method DropOldest()
      requires config.Valid()
      modifies this`queue, this`droppedFrames
      ensures var n := Overflow(config, old(|queue|));
        queue == old(queue)[n..] && droppedFrames == old(droppedFrames) + n
    {
      ghost var k := 0;
      while |queue| >= config.maxQueueFrames
        invariant 0 <= k <= Overflow(config, old(|queue|))
        invariant queue == old(queue)[k..] && droppedFrames == old(droppedFrames) + k
      {
        queue := queue[1..];
        droppedFrames := droppedFrames + 1;
        k := k + 1;
      }
    }

    method PopNextFrame(now: int) returns (frame: Option<VideoFrame>)
      requires Valid()
      modifies this
      ensures Valid()
      ensures var r := AfterPop(config, old(Value()), now);
        && Value() == r.state
        && frame == (if r.entry.Some? then Some(r.entry.value.frame) else None)
        && lastEmittedFrameId == (if r.entry.Some? then r.entry.value.frame.frameId else old(lastEmittedFrameId))
    {
      if queue == [] {
        return None;
      }
      var elapsedMs := ElapsedMs(queue[0].arrival, now);
      if elapsedMs >= currentTargetDelayMs || |queue| >= config.maxQueueFrames / 2 {
        frame := Some(queue[0].frame);
        queue := queue[1..];
        lastEmittedFrameId := frame.value.frameId;
        return;
      }
      frame := None;
    }

    method UpdateNetworkStats(measuredJitterMs: real, packetLossRate: real)
      requires Valid()
      modifies this`currentTargetDelayMs
      ensures Valid()
      ensures Value() == AfterStats(config, old(Value()), measuredJitterMs, packetLossRate)
    {
      var target := config.minDelayMs as real + 2.0 * measuredJitterMs + packetLossRate * 20.0;
      target := Clamp(target, config.minDelayMs as real, config.maxDelayMs as real);
      currentTargetDelayMs := target.Floor;
    }

    method Flush()
      requires Valid()
      modifies this
      ensures Valid() && Value() == AfterFlush(old(Value())) && lastEmittedFrameId == 0
    {
      queue := [];
      lastEmittedFrameId := 0;
      waitingForInitialKeyframe := true;
    }
  }
}
