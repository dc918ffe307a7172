/**
 * The ring-buffer queue of Array_Queue.h: a fixed array of `maxLength` slots, with
 * `front` on the oldest item and `rear` on the newest, both advancing modulo the
 * capacity.  Enqueueing on a full queue and dequeueing from an empty one only print a
 * message and leave the queue as it was.
 */
module ArrayQueue {

  /** The capacity `Queue()` uses when none is given. */
  const DefaultCapacity: nat := 100

  /** The largest capacity an `int` MAX_LENGTH can hold. */
  const MaxCapacity: nat := 0x7FFF_FFFF

  /**
   * `x % m` for an index at most one turn outside `0..m`, written as the single
   * correction it takes: every slot index the queue computes has this form.
   */
  function Wrap(x: int, m: int): (r: int)
    requires m > 0 && -m <= x < 2 * m
    ensures r == x % m && 0 <= r < m
  {
    if x < 0 then ModBelow(x, m); x + m
    else if x >= m then ModAbove(x, m); x - m
    else ModWithin(x, m); x
  }

  lemma ModBelow(x: int, m: int)
    requires m > 0 && -m <= x < 0
    ensures x % m == x + m
  {
    var q := x / m;
    assert x == q * m + x % m;
  }

  lemma ModAbove(x: int, m: int)
    requires m > 0 && m <= x < 2 * m
    ensures x % m == x - m
  {
    var q := x / m;
    assert x == q * m + x % m;
  }

  lemma ModWithin(x: int, m: int)
    requires m > 0 && 0 <= x < m
    ensures x % m == x
  {
    var q := x / m;
    assert x == q * m + x % m;
  }

  class Queue<T(0)> {
    const maxLength: int
    var rear: int
    var front: int
    var length: int
    const buf: array<T>
    /** The items from the oldest to the newest. */
    ghost var Contents: seq<T>

    /** The slot holding the item `i` places behind the front. */
    function Slot(i: int): int
      reads this
      requires maxLength > 0 && 0 <= front < maxLength && -1 <= i < maxLength
    {
      Wrap(front + i, maxLength)
    }

    /**
     * `rear` sits `length - 1` slots past `front` (one slot before it when the queue
     * is empty), and the `length` slots from `front` on hold `Contents`.
     */
    ghost predicate Valid()
      reads this, buf
    {
      && buf.Length == maxLength
      && 0 <= length <= maxLength
      && |Contents| == length
      && (maxLength == 0 ==> front == 0 && rear == -1)
      && (maxLength > 0 ==>
            && 0 <= front < maxLength
            && rear == Slot(length - 1)
            && forall i :: 0 <= i < length ==> Contents[i] == buf[Slot(i)])
    }

    /** `Queue(size)`: an empty queue with `size` slots. */
    constructor (size: nat)
      requires size <= MaxCapacity
      ensures Valid() && Contents == [] && maxLength == size && front == 0 && fresh(buf)
    {
      maxLength := size;
      rear := size - 1;
      front := 0;
      length := 0;
      buf := new T[size];
      Contents := [];
    }

    /** `Queue()`: an empty queue with the default 100 slots. */
    constructor Default()
      ensures Valid() && Contents == [] && maxLength == DefaultCapacity && front == 0 && fresh(buf)
    {
      maxLength := DefaultCapacity;
      rear := DefaultCapacity - 1;
      front := 0;
      length := 0;
      buf := new T[DefaultCapacity];
      Contents := [];
    }

    predicate Empty()
      reads this, buf
      requires Valid()
      ensures Empty() <==> Contents == []
    {
      length == 0
    }

    predicate IsFull()
      reads this, buf
      requires Valid()
      ensures IsFull() <==> |Contents| == maxLength
    {
      length == maxLength
    }

    /** Appends `item` at the rear unless the queue is full; a full queue is left as it was. */
    method Enqueue(item: T)
      requires Valid()
      modifies this, buf
      ensures Valid()
      ensures old(length) < maxLength ==> Contents == old(Contents) + [item] && front == old(front)
      ensures old(length) == maxLength ==> Contents == old(Contents) && unchanged(this)
    {
      if length != maxLength {
        assert Wrap(1 + rear, maxLength) == Slot(length);
        rear := (1 + rear) % maxLength;
        buf[rear] := item;
        length := length + 1;
        Contents := Contents + [item];
      }
    }

    /** `dequeue()`: drops the front item unless the queue is empty. */
    method Dequeue()
      requires Valid()
      modifies this
      ensures Valid()
      ensures old(length) > 0 ==> Contents == old(Contents)[1..] && front == (1 + old(front)) % maxLength
      ensures old(length) == 0 ==> unchanged(this)
    {
      if length != 0 {
        Advance();
      }
    }

    /**
     * `dequeue(t&)`: the front item is written to the caller's variable, here
     * `current`, and dropped; on an empty queue the variable keeps its value.
     */
    method DequeueInto(current: T) returns (item: T)
      requires Valid()
      modifies this
      ensures Valid()
      ensures old(length) > 0 ==> item == old(Contents)[0] && Contents == old(Contents)[1..]
      ensures old(length) > 0 ==> front == (1 + old(front)) % maxLength
      ensures old(length) == 0 ==> item == current && unchanged(this)
    {
      item := current;
      if length != 0 {
        item := buf[front];
        Advance();
      }
    }

    /** The shared body of both dequeues: `front` moves one slot on and `length` drops. */
    method Advance()
      requires Valid() && length > 0
      modifies this
      ensures Valid() && Contents == old(Contents)[1..] && front == (1 + old(front)) % maxLength
    {
      assert Wrap(1 + front, maxLength) == (1 + front) % maxLength;
      front := (1 + front) % maxLength;
      length := length - 1;
      Contents := Contents[1..];
    }

    /** `get_front()`: the oldest item; the source asserts the queue is not empty. */
    function Front(): (r: T)
      reads this, buf
      requires Valid() && length > 0
      ensures r == Contents[0]
    {
      buf[front]
    }

    /** `get_rear()`: the newest item, found through `rear` alone. */
    function Rear(): (r: T)
      reads this, buf
      requires Valid() && length > 0
      ensures r == Contents[|Contents| - 1]
    {
      buf[rear]
    }
  }

  /**
   * test.cpp's test_array_queue, first half: five slots; enqueue 1, 2, 3; a dequeue
   * yields 1 and the front is then 2.
   */
  method StartTestQueue() returns (q: Queue<int>, first: int, next: int)
    ensures fresh(q) && fresh(q.buf) && q.Valid() && q.maxLength == 5
    ensures q.Contents == [2, 3] && q.front == 1
    ensures first == 1 && next == 2
  {
    q := new Queue<int>(5);
    q.Enqueue(1);
    q.Enqueue(2);
    q.Enqueue(3);
    first := q.DequeueInto(0);
    next := q.Front();
  }

  /**
   * The second half: three more enqueues wrap `rear` round to slot 0 and fill the
   * queue; a further enqueue is refused, so the newest item is still 6.
   */
  method TestScenario() returns (first: int, next: int, full: bool, rearSlot: int, last: int)
    ensures first == 1 && next == 2 && full && rearSlot == 0 && last == 6
  {
    var q;
    q, first, next := StartTestQueue();
    q.Enqueue(4);
    q.Enqueue(5);
    q.Enqueue(6);
    assert q.Contents == [2, 3, 4, 5, 6] && q.front == 1;
    q.Enqueue(7);
    full := q.IsFull();
    rearSlot := q.rear;
    last := q.Rear();
  }

  /**
   * A queue of capacity 0 is empty and full at once: enqueue and dequeue both take
   * their refusing branch, so the `% MAX_LENGTH` that would divide by zero never runs.
   */
  method ZeroCapacity() returns (empty: bool, full: bool, item: int)
    ensures empty && full && item == 7
  {
    var q := new Queue<int>(0);
    q.Enqueue(5);
    item := q.DequeueInto(7);
    q.Dequeue();
    empty := q.Empty();
    full := q.IsFull();
  }
}
