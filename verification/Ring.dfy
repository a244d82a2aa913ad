/**
 The circular element buffer of the blocking queue (blocking_queue.h).

 `Ring` is the value of the four queue fields; its `Contents` is the sequence
 of elements a reader sees from front to rear.  `Buffer` is the structure the
 program updates in place; each of its methods is tied to the value it leaves.
 */
module Ring {

  /** A queued `void*`. */
  type Element = nat

  /** The value of `queue`, `queue_size`, `queue_front` and `queue_rear`; the capacity is `|cells|`. */
  datatype Ring = Ring(cells: seq<Element>, size: nat, front: nat, rear: nat) {

    ghost predicate Valid() {
      && 0 < |cells|
      && size <= |cells|
      && front < |cells|
      && rear < |cells|
      && (front + size == rear + 1 || front + size == rear + 1 + |cells| || front + size + |cells| == rear + 1)
    }

    predicate IsFull() { size == |cells| }

    function Contents(): (s: seq<Element>)
      requires Valid()
      ensures |s| == size
    {
      seq(size, i requires 0 <= i < size => cells[(front + i) % |cells|])
    }
  }

  /** `enqueue`, which does not look whether there is room. */
  function Enqueued(r: Ring, x: Element): (r': Ring)
    requires r.Valid()
  {
    var rear := (r.rear + 1) % |r.cells|;
    Ring(r.cells[rear := x], r.size + 1, r.front, rear)
  }

  /** `unsigned int` arithmetic: one less than zero. */
  const UINT_MAX := 0xFFFF_FFFF

  /** `dequeue`, the state it leaves; the element it hands out is the one at the front. */
  function Dequeued(r: Ring): (r': Ring)
    requires r.Valid()
  {
    Ring(r.cells, if r.size == 0 then UINT_MAX else r.size - 1, (r.front + 1) % |r.cells|, r.rear)
  }

  /** The part of the new buffer that the `memcpy` calls of `grow_queue` fill. */
  function Copied(r: Ring): (s: seq<Element>)
    requires r.Valid() && r.IsFull()
    ensures |s| == r.size
  {
    if r.rear >= r.front
    then r.cells[r.front..r.front + r.size]
    else r.cells[r.front..] + r.cells[..r.rear + 1]
  }

  /** `grow_queue`: twice the cells, of which only the copied ones are determined. */
  ghost predicate GrownTo(r: Ring, r': Ring)
    requires r.Valid() && r.IsFull()
  {
    && |r'.cells| == 2 * |r.cells|
    && r'.cells[..r.size] == Copied(r)
    && r'.size == r.size
    && r'.front == 0
    && r'.rear == r.size - 1
  }

  /** `x % n` for `x` within one wrap. */
  lemma WrapOnce(x: nat, n: nat)
    requires 0 < n && x < 2 * n
    ensures x % n == if x < n then x else x - n
  {
    var q := x / n;
    assert x == n * q + x % n;
    if q == 1 { assert n * q == n; }
  }

  /** Adding at the rear appends, whatever the wrap-around. */
  lemma EnqueueAppends(r: Ring, x: Element)
    requires r.Valid() && !r.IsFull()
    ensures Enqueued(r, x).Valid()
    ensures Enqueued(r, x).Contents() == r.Contents() + [x]
  {
    var r' := Enqueued(r, x);
    var n := |r.cells|;
    WrapOnce(r.rear + 1, n);
    WrapOnce(r'.rear + 1, n);
    WrapOnce(r.front + r.size, n);
    WrapOnce(r.front + r.size + 1, n);
    forall i | 0 <= i < r'.size
      ensures r'.Contents()[i] == (r.Contents() + [x])[i]
    {
      WrapOnce(r.front + i, n);
    }
  }

  /** Removing at the front hands out the oldest element and keeps the others in order. */
  lemma DequeueTakesOldest(r: Ring)
    requires r.Valid() && 0 < r.size
    ensures Dequeued(r).Valid()
    ensures [r.cells[r.front]] + Dequeued(r).Contents() == r.Contents()
  {
    var r' := Dequeued(r);
    var n := |r.cells|;
    WrapOnce(r.front + 1, n);
    WrapOnce(r.rear + 1, n);
    WrapOnce(r.front + r.size, n);
    WrapOnce(r'.front + r'.size, n);
    WrapOnce(r.front, n);
    forall i | 0 <= i < r'.size
      ensures r'.Contents()[i] == r.Contents()[i + 1]
    {
      WrapOnce(r'.front + i, n);
      WrapOnce(r.front + i + 1, n);
    }
    assert [r.cells[r.front]] + r'.Contents() == r.Contents();
  }

  /** Growing loses, adds and reorders nothing, and leaves room. */
  lemma GrowKeepsContents(r: Ring, r': Ring)
    requires r.Valid() && r.IsFull() && GrownTo(r, r')
    ensures r'.Valid() && !r'.IsFull()
    ensures r'.Contents() == r.Contents()
  {
    forall i | 0 <= i < r.size
      ensures r'.Contents()[i] == r.Contents()[i]
    {
      WrapOnce(r.front + i, |r.cells|);
      WrapOnce(i, |r'.cells|);
      assert r'.cells[..r.size][i] == Copied(r)[i];
    }
  }

  /** The fields of `Blocking_Queue` that hold the elements, updated in place. */
  class Buffer {
    var queue: array<Element>
    var size: nat
    var front: nat
    var rear: nat

    ghost function Value(): (r: Ring)
      reads this, queue
    {
      Ring(queue[..], size, front, rear)
    }

    /** `blocking_queue_init`: a capacity of zero stands for a boundless queue that starts with one cell. */
    constructor (capacity: nat)
      ensures Value().Valid() && Value().Contents() == []
      ensures fresh(queue) && queue.Length == (if capacity == 0 then 1 else capacity)
    {
      var n := if capacity == 0 then 1 else capacity;
      queue := new Element[n];
      size, front, rear := 0, 0, n - 1;
    }

    method Enqueue(element: Element)
      requires Value().Valid() && size < queue.Length
      modifies this`size, this`rear, queue
      ensures Value() == Enqueued(old(Value()), element)
      ensures Value().Valid() && Value().Contents() == old(Value().Contents()) + [element]
    {
      EnqueueAppends(Value(), element);
      rear := (rear + 1) % queue.Length;
      queue[rear] := element;
      size := size + 1;
    }

    method Dequeue() returns (element: Element)
      requires Value().Valid() && 0 < size
      modifies this`size, this`front
      ensures Value() == Dequeued(old(Value()))
      ensures Value().Valid() && [element] + Value().Contents() == old(Value().Contents())
    {
      DequeueTakesOldest(Value());
      element := queue[front];
      front := (front + 1) % queue.Length;
      size := size - 1;
    }

    /** Copies `n` cells of `from` starting at `offset`, as `memcpy` does. */
    static method CopyCells(target: array<Element>, at: nat, from: array<Element>, offset: nat, n: nat)
      requires target != from && at + n <= target.Length && offset + n <= from.Length
      modifies target
      ensures target[..] == old(target[..at]) + from[offset..offset + n] + old(target[at + n..])
    {
      for i := 0 to n
        invariant forall k :: 0 <= k < target.Length ==>
                                target[k] == if at <= k < at + i then from[offset + k - at] else old(target[k])
      {
        target[at + i] := from[offset + i];
      }
    }

    /** Its copy of the cells, from the front on. */
    method CopyQueue() returns (grown: array<Element>)
      requires Value().Valid() && size == queue.Length
      ensures fresh(grown) && grown.Length == 2 * queue.Length && grown[..size] == Copied(Value())
    {
      grown := new Element[2 * queue.Length];
      if rear >= front {
        CopyCells(grown, 0, queue, front, size);
        assert grown[..size] == queue[front..front + size];
      } else {
        CopyCells(grown, 0, queue, front, queue.Length - front);
        ghost var first := grown[..];
        CopyCells(grown, queue.Length - front, queue, 0, rear + 1);
        assert first[..queue.Length - front] == queue[front..];
        assert grown[..size] == queue[front..] + queue[..rear + 1];
      }
    }

    /** `grow_queue`, where the allocation succeeds. */
    method Grow()
      requires Value().Valid() && size == queue.Length
      modifies this
      ensures GrownTo(old(Value()), Value())
      ensures Value().Valid() && Value().Contents() == old(Value().Contents()) && size < queue.Length
      ensures fresh(queue)
    {
      ghost var was := Value();
      var grown := CopyQueue();
      queue := grown;
      front := 0;
      rear := size - 1;
      GrowKeepsContents(was, Value());
    }
  }
}
