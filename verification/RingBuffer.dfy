/** The head/tail ring: a FIFO of Capacity - 1 items that makes room by dropping its oldest. One call at a time. */
module RingBuffer {
  import opened Sequences
  import opened Wrappers

  // ---- The queue it refines ----

  datatype Fifo<T> = Fifo(contents: seq<T>, dropped: nat)

  function Pushed<T>(capacity: nat, q: Fifo<T>, item: T): Fifo<T>
    requires capacity >= 1
  {
    if |q.contents| == capacity - 1 then Fifo((q.contents + [item])[1..], q.dropped + 1)
    else Fifo(q.contents + [item], q.dropped)
  }

  function Popped<T>(q: Fifo<T>): (Fifo<T>, Option<T>) {
    if q.contents == [] then (q, None) else (q.(contents := q.contents[1..]), Some(q.contents[0]))
  }

  datatype Op<T> = Push(item: T) | Pop

  /** Items that went in, and items that came out - popped or dropped - in order. */
  datatype History<T> = History(queue: Fifo<T>, pushed: seq<T>, removed: seq<T>, pops: nat)

  function Apply<T>(capacity: nat, h: History<T>, op: Op<T>): History<T>
    requires capacity >= 1
  {
    match op
    case Push(x) =>
      h.(queue := Pushed(capacity, h.queue, x), pushed := h.pushed + [x],
         removed := if |h.queue.contents| == capacity - 1 then h.removed + [(h.queue.contents + [x])[0]] else h.removed)
    case Pop =>
      var (q, item) := Popped(h.queue);
      if item.None? then h else h.(queue := q, removed := h.removed + [item.value], pops := h.pops + 1)
  }

  function ApplyAll<T>(capacity: nat, h: History<T>, ops: seq<Op<T>>): History<T>
    requires capacity >= 1
  {
    if ops == [] then h else Apply(capacity, ApplyAll(capacity, h, ops[..|ops| - 1]), ops[|ops| - 1])
  }

  ghost predicate Accounted<T>(capacity: nat, h: History<T>, droppedBefore: nat) {
    && h.pushed == h.removed + h.queue.contents
    && |h.queue.contents| < capacity
    && droppedBefore + |h.removed| == h.pops + h.queue.dropped
  }

  /**
    From any empty ring, over any run of pushes and pops: what went in is what came out followed by what is
    inside, in order; never more than Capacity - 1 inside; and pushes = pops + size + dropped.
  */
  lemma {:induction false} FifoAlways<T>(capacity: nat, start: Fifo<T>, ops: seq<Op<T>>)
    requires capacity >= 1 && start.contents == []
    ensures var h := ApplyAll(capacity, History(start, [], [], 0), ops);
      && Accounted(capacity, h, start.dropped)
      && start.dropped + |h.pushed| == h.pops + |h.queue.contents| + h.queue.dropped
  {
    if ops != [] {
      var before := ApplyAll(capacity, History(start, [], [], 0), ops[..|ops| - 1]);
      FifoAlways(capacity, start, ops[..|ops| - 1]);
      ApplyAccounts(capacity, before, ops[|ops| - 1], start.dropped);
    }
  }

  lemma ApplyAccounts<T>(capacity: nat, h: History<T>, op: Op<T>, droppedBefore: nat)
    requires capacity >= 1 && Accounted(capacity, h, droppedBefore)
    ensures Accounted(capacity, Apply(capacity, h, op), droppedBefore)
  {
    match op
    case Push(x) =>
      var all := h.queue.contents + [x];
      assert h.pushed + [x] == h.removed + all;
      if |h.queue.contents| == capacity - 1 {
        assert h.removed + all == h.removed + [all[0]] + all[1..];
      }
    case Pop =>
      if h.queue.contents != [] {
        assert h.removed + h.queue.contents == h.removed + [h.queue.contents[0]] + h.queue.contents[1..];
      }
  }

  function Pushes<T>(items: seq<T>): (ops: seq<Op<T>>)
    ensures |ops| == |items|
  {
    if items == [] then [] else Pushes(items[..|items| - 1]) + [Push(items[|items| - 1])]
  }

  /** Filling an empty ring loses nothing up to Capacity - 1 items; of more, the last Capacity - 1 are kept. */
  lemma {:induction false} FillKeepsLast<T>(capacity: nat, start: Fifo<T>, items: seq<T>)
    requires capacity >= 1 && start.contents == []
    ensures ApplyAll(capacity, History(start, [], [], 0), Pushes(items)).queue
         == Fifo(items[Excess(capacity, |items|)..], start.dropped + Excess(capacity, |items|))
  {
    hide Pushed;
    if items != [] {
      var n := |items| - 1;
      FillKeepsLast(capacity, start, items[..n]);
      assert Pushes(items)[..n] == Pushes(items[..n]);
      PushKeepsLast(capacity, items, start.dropped);
    }
  }

  function Excess(capacity: nat, n: nat): (k: nat)
    requires capacity >= 1
    ensures k <= n && (k == 0 <==> n < capacity)
    ensures n >= capacity ==> n - k == capacity - 1
  {
    if n < capacity then 0 else n - (capacity - 1)
  }

  lemma PushKeepsLast<T>(capacity: nat, items: seq<T>, dropped: nat)
    requires capacity >= 1 && items != []
    ensures var n := |items| - 1;
            var before, after := Excess(capacity, n), Excess(capacity, n + 1);
      Pushed(capacity, Fifo(items[..n][before..], dropped + before), items[n])
        == Fifo(items[after..], dropped + after)
  {
    var n := |items| - 1;
    var before := Excess(capacity, n);
    assert items[..n][before..] + [items[n]] == items[before..];
    DropDrop(items, before, Excess(capacity, n + 1) - before);
  }

  function Pops<T>(n: nat): (ops: seq<Op<T>>)
    ensures |ops| == n
  {
    if n == 0 then [] else Pops(n - 1) + [Pop]
  }

  /** Popping as often as there are items gives them back in order, whatever went before; once more gives nothing. */
  lemma {:induction false} DrainGivesBack<T>(capacity: nat, h: History<T>, n: nat)
    requires capacity >= 1 && n <= |h.queue.contents|
    ensures ApplyAll(capacity, h, Pops(n)) == Drained(h, n)
  {
    hide Apply, Drained;
    if n == 0 {
      NothingDrained(h);
    } else {
      DrainGivesBack(capacity, h, n - 1);
      assert Pops<T>(n)[..n - 1] == Pops<T>(n - 1);
      PopTakesNext(capacity, h, n - 1);
    }
  }

  /** The first n items have come out. */
  function Drained<T>(h: History<T>, n: nat): History<T>
    requires n <= |h.queue.contents|
  {
    var c := h.queue.contents;
    h.(queue := h.queue.(contents := c[n..]), removed := h.removed + c[..n], pops := h.pops + n)
  }

  lemma NothingDrained<T>(h: History<T>)
    ensures Drained(h, 0) == h
  {
    assert h.queue.contents[0..] == h.queue.contents && h.removed + [] == h.removed;
  }

  lemma PopTakesNext<T>(capacity: nat, h: History<T>, n: nat)
    requires capacity >= 1 && n <= |h.queue.contents|
    ensures Apply(capacity, Drained(h, n), Pop)
         == if n < |h.queue.contents| then Drained(h, n + 1) else Drained(h, n)
  {
    var c := h.queue.contents;
    if n < |c| {
      DropDrop(c, n, 1);
      assert c[..n] + [c[n]] == c[..n + 1];
      Reassociate(h.removed, c[..n], [c[n]]);
    }
  }

  // ---- Slots ----

  /** The items from head to tail, around the end of the storage. */
  ghost function Window<T>(slots: seq<T>, head: nat, tail: nat): (c: seq<T>)
    requires head < |slots| && tail < |slots|
    ensures |c| == if head <= tail then tail - head else |slots| - (head - tail)
  {
    if head <= tail then slots[head..tail] else slots[head..] + slots[..tail]
  }

  function Wrapped(i: nat, capacity: nat): (next: nat)
    requires i < capacity
    ensures next < capacity
  {
    if i + 1 == capacity then 0 else i + 1
  }

  lemma WrappedIsModular(i: nat, capacity: nat)
    requires i < capacity
    ensures (i + 1) % capacity == Wrapped(i, capacity)
  {
    if i + 1 < capacity { assert (i + 1) / capacity == 0; }
  }

  lemma WindowAppend<T>(slots: seq<T>, head: nat, tail: nat, item: T)
    requires head < |slots| && tail < |slots| && Wrapped(tail, |slots|) != head
    ensures Window(slots[tail := item], head, Wrapped(tail, |slots|)) == Window(slots, head, tail) + [item]
  {
  }

  lemma WindowDrop<T>(slots: seq<T>, head: nat, tail: nat)
    requires head < |slots| && tail < |slots| && head != tail
    ensures Window(slots, head, tail) == [slots[head]] + Window(slots, Wrapped(head, |slots|), tail)
  {
    SliceHead(slots, head, if head < tail then tail else |slots|);
    if head > tail {
      assert slots[head + 1..] + slots[..tail] == Window(slots, Wrapped(head, |slots|), tail);
      Reassociate([slots[head]], slots[head + 1..], slots[..tail]);
    }
  }

  lemma SliceHead<T>(slots: seq<T>, i: nat, j: nat)
    requires i < j <= |slots|
    ensures slots[i..j] == [slots[i]] + slots[i + 1..j]
    ensures j == |slots| ==> slots[i..] == slots[i..j] && slots[i + 1..] == slots[i + 1..j]
  {
  }

  lemma StoredAt<T>(slots: seq<T>, tail: nat, item: T)
    requires tail < |slots|
    ensures slots[tail := item][..tail + 1] == slots[..tail] + [item]
    ensures slots[tail := item][tail + 1..] == slots[tail + 1..]
  {
  }

  /** A full ring forgets its head; a ring of capacity 1 is always full and forgets the new item itself. */
  lemma WindowReplace<T>(slots: seq<T>, head: nat, tail: nat, item: T)
    requires head < |slots| && tail < |slots| && Wrapped(tail, |slots|) == head
    ensures |Window(slots, head, tail)| == |slots| - 1
    ensures Window(slots[tail := item], Wrapped(head, |slots|), head) == (Window(slots, head, tail) + [item])[1..]
  {
    StoredAt(slots, tail, item);
    if head > 0 {
      Reassociate(slots[head..], slots[..tail], [item]);
      TailOfJoined(slots[head..], slots[..tail] + [item]);
      DropDrop(slots, head, 1);
      DropDrop(slots[tail := item], head, 1);
      assert slots[tail := item][head..][1..] == slots[head + 1..];
    } else if tail > 0 {
      assert slots[tail := item] == slots[..tail] + [item];
    }
  }

  lemma PoppedHead<T>(q: Fifo<T>, first: T, rest: seq<T>)
    requires q.contents == [first] + rest
    ensures Popped(q) == (q.(contents := rest), Some(first))
  {
    assert q.contents[1..] == rest;
  }

  // ---- The mutable ring ----

  class LockFreeRingBuffer<T(0)> {
    const buffer: array<T>
    var head: nat
    var tail: nat
    var droppedCount: nat

    ghost predicate Valid()
      reads this
    {
      head < buffer.Length && tail < buffer.Length
    }

    constructor (capacity: nat)
      requires capacity >= 1
      ensures Valid() && buffer.Length == capacity && fresh(buffer) && Value() == Fifo([], 0)
    {
      buffer := new T[capacity];
      head, tail, droppedCount := 0, 0, 0;
    }

    ghost function Contents(): (c: seq<T>)
      reads this, buffer
      requires Valid()
      ensures |c| < buffer.Length
    {
      Window(buffer[..], head, tail)
    }

    ghost function Value(): Fifo<T>
      reads this, buffer
      requires Valid()
    {
      Fifo(Contents(), droppedCount)
    }

    method Push(item: T) returns (ok: bool)
      requires Valid()
      modifies this`head, this`tail, this`droppedCount, buffer
      ensures Valid() && ok
      ensures Value() == Pushed(buffer.Length, old(Value()), item)
    {
      ghost var slots, h, t := buffer[..], head, tail;
      WrappedIsModular(tail, buffer.Length);
      WrappedIsModular(head, buffer.Length);
      var nextTail := (tail + 1) % buffer.Length;
      if nextTail == head {
        WindowReplace(slots, h, t, item);
        head := (head + 1) % buffer.Length;
        droppedCount := droppedCount + 1;
      } else {
        WindowAppend(slots, h, t, item);
      }
      hide Window, Wrapped;
      buffer[tail] := item;
      tail := nextTail;
      assert buffer[..] == slots[t := item];
      ok := true;
    }

    method Pop() returns (item: Option<T>)
      requires Valid()
      modifies this`head
      ensures Valid()
      ensures (Value(), item) == Popped(old(Value()))
    {
      if head == tail {
        return None;
      }
      hide Window, Wrapped, Popped;
      ghost var slots := buffer[..];
      var next := (head + 1) % buffer.Length;
      WrappedIsModular(head, buffer.Length);
      WindowDrop(slots, head, tail);
      PoppedHead(Value(), slots[head], Window(slots, next, tail));
      item := Some(buffer[head]);
      head := next;
      assert buffer[..] == slots;
    }

    method IsEmpty() returns (empty: bool)
      requires Valid()
      ensures empty <==> Contents() == []
    {
      empty := head == tail;
    }

    method Size() returns (n: nat)
      requires Valid()
      ensures n == |Contents()|
    {
      if tail >= head {
        return tail - head;
      }
      n := buffer.Length - (head - tail);
    }

    /** Empties the ring; the drop count goes on. */
    method Clear()
      requires Valid()
      modifies this`head, this`tail
      ensures Valid() && Value() == Fifo([], old(droppedCount))
    {
      head := 0;
      tail := 0;
    }
  }
}
