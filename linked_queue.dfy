/**
 * The linked queue of Linked_Queue.h: a chain of nodes from `front` along `next` to
 * `rear`, with a `length` count.
 *
 * `dequeue()` moves `front` on without decrementing `length`, so the count and the
 * chain drift apart.  The model therefore has two invariants: `Linked()` holds in every
 * state the class's operations can reach, and `Valid()` (the count equals the chain)
 * is what `dequeue(t&)`, `enqueue` and `clear` keep but `dequeue()` breaks.
 */
module LinkedQueue {
  import opened SeqOps

  class Node<T> {
    var item: T
    var next: Node?<T>

    constructor (value: T)
      ensures item == value && next == null
    {
      item, next := value, null;
    }
  }

  function NextOf<T>(ns: seq<Node<T>>, i: nat): Node?<T> {
    if i + 1 < |ns| then ns[i + 1] else null
  }

  class Queue<T> {
    var front: Node?<T>
    var rear: Node?<T>
    var length: int
    /** The items reachable from `front`, oldest first. */
    ghost var Contents: seq<T>
    /** The nodes reachable from `front`. */
    ghost var Nodes: seq<Node<T>>

    /**
     * The chain from `front` along `next` is `Nodes`, holding `Contents`, and it ends at
     * `rear`.  `length` counts at least the chain; once `dequeue()` has emptied the chain
     * while `length` is still positive, `rear` is the node it skipped last, now detached.
     */
    ghost predicate Linked()
      reads this, Nodes
    {
      && |Nodes| == |Contents| <= length
      && Distinct(Nodes)
      && front == (if Nodes == [] then null else Nodes[0])
      && (Nodes != [] ==> rear == Nodes[|Nodes| - 1])
      && (length > 0 ==> rear != null)
      && (forall i {:trigger Nodes[i].item} :: 0 <= i < |Nodes| ==> Nodes[i].item == Contents[i])
      && (forall i {:trigger Nodes[i].next} :: 0 <= i < |Nodes| ==> Nodes[i].next == NextOf(Nodes, i))
    }

    /** The intended invariant: `length` is the number of items in the chain. */
    ghost predicate Valid()
      reads this, Nodes
    {
      Linked() && length == |Nodes|
    }

    constructor ()
      ensures Valid() && Contents == [] && front == null && rear == null
    {
      front, rear, length := null, null, 0;
      Contents, Nodes := [], [];
    }

    /** `empty()` tests the count, not the chain. */
    predicate Empty()
      reads this, Nodes
      requires Linked()
      ensures Empty() ==> Contents == []
      ensures Valid() ==> (Empty() <==> Contents == [])
    {
      length == 0
    }

    /**
     * Appends `item` after `rear`.  While the chain is intact this extends `Contents`;
     * when `dequeue()` has emptied the chain but not the count, the new node hangs off
     * the detached `rear` and is unreachable from `front`.
     */
    method Enqueue(item: T)
      requires Linked()
      modifies this, Nodes, rear
      ensures Linked() && length == old(length) + 1 && fresh(rear)
      ensures old(length) == 0 || old(Nodes) != [] ==>
        Contents == old(Contents) + [item] && Nodes == old(Nodes) + [rear]
      ensures old(length) > 0 && old(Nodes) == [] ==> Contents == [] && Nodes == []
      ensures old(Valid()) ==> Valid()
    {
      var node := new Node(item);
      if length == 0 {
        front := node;
        rear := front;
        length := length + 1;
        Contents, Nodes := [item], [node];
      } else {
        rear.next := node;
        rear := node;
        length := length + 1;
        if Nodes != [] {
          Contents, Nodes := Contents + [item], Nodes + [node];
        }
      }
    }

    /**
     * `dequeue()` as written: `front` moves on but `length` is not decremented, so a
     * queue that was Valid and non-empty no longer is.  The source dereferences `front`
     * whenever `length` is positive, which the precondition makes explicit.
     */
    method Dequeue()
      requires Linked() && (length > 0 ==> Nodes != [])
      modifies this
      ensures Linked() && length == old(length) && rear == old(rear)
      ensures old(length) > 0 ==> Contents == old(Contents)[1..] && Nodes == old(Nodes)[1..]
      ensures old(length) == 0 ==> Contents == old(Contents) && Nodes == old(Nodes)
      ensures old(length) > 0 ==> !Valid()
    {
      if length != 0 {
        front := front.next;
        Contents, Nodes := Contents[1..], Nodes[1..];
      }
    }

    /** `dequeue()` with the missing `--length`: it keeps `Valid()`. */
    method DequeueCorrected()
      requires Valid()
      modifies this
      ensures Valid() && rear == old(rear)
      ensures old(length) > 0 ==> Contents == old(Contents)[1..] && Nodes == old(Nodes)[1..]
      ensures old(length) == 0 ==> Contents == old(Contents) && Nodes == old(Nodes)
    {
      if length != 0 {
        front := front.next;
        length := length - 1;
        Contents, Nodes := Contents[1..], Nodes[1..];
      }
    }

    /**
     * `dequeue(t&)`: the front item is written to the caller's variable, here `current`,
     * its node is cut loose and `length` drops; an empty queue leaves `current` as it was.
     * `rear` is not reset when the last node goes, but `enqueue` on an empty queue sets
     * it afresh, so that is never observed.
     */
    method DequeueInto(current: T) returns (item: T)
      requires Linked() && (length > 0 ==> Nodes != [])
      modifies this, Nodes
      ensures Linked()
      ensures old(length) > 0 ==> item == old(Contents)[0] && Contents == old(Contents)[1..]
      ensures old(length) > 0 ==> Nodes == old(Nodes)[1..] && length == old(length) - 1
      ensures old(length) == 0 ==> item == current && Contents == [] && Nodes == [] && length == 0
      ensures old(Valid()) ==> Valid()
    {
      item := current;
      if length != 0 {
        item := front.item;
        var temp := front;
        front := front.next;
        temp.next := null;
        length := length - 1;
        Contents, Nodes := Contents[1..], Nodes[1..];
      }
    }

    /** `clear()`: `dequeue()` until `front` is null, then the count and `rear` are reset. */
    method Clear()
      requires Linked()
      modifies this
      ensures Valid() && Contents == [] && front == null && rear == null
    {
      while front != null
        invariant Linked()
        decreases |Nodes|
      {
        Dequeue();
      }
      length := 0;
      rear := null;
    }

    /** `get_front()`: the oldest reachable item; the source asserts the count is positive. */
    function GetFront(): (r: T)
      reads this, Nodes
      requires Linked() && length > 0 && Nodes != []
      ensures r == Contents[0]
    {
      front.item
    }

    /** `get_rear()`: the item `rear` holds, which is the newest item of an intact chain. */
    function GetRear(): (r: T)
      reads this, Nodes, rear
      requires Linked() && length > 0
      ensures Nodes != [] ==> r == Contents[|Contents| - 1]
    {
      rear.item
    }

    /** `get_length()`: the count, which is the chain's size while the queue is Valid. */
    function GetLength(): (n: int)
      reads this, Nodes
      requires Linked()
      ensures n >= |Contents|
      ensures Valid() ==> n == |Contents|
    {
      length
    }
  }

  /**
   * test.cpp's test_linked_queue: enqueue 1, 2, 3; a dequeue yields 1 and the front is
   * then 2; clear empties the queue.
   */
  method TestScenario() returns (first: int, next: int, newest: int, cleared: bool)
    ensures first == 1 && next == 2 && newest == 3 && cleared
  {
    var q := new Queue<int>();
    q.Enqueue(1);
    q.Enqueue(2);
    q.Enqueue(3);
    first := q.DequeueInto(0);
    next := q.GetFront();
    newest := q.GetRear();
    q.Clear();
    cleared := q.Empty();
  }

  /**
   * `dequeue()` on a one-item queue: the chain is empty yet `empty()` is false and the
   * count stays 1; an item enqueued next hangs off the detached rear, unreachable from
   * `front`, while the count goes to 2.
   */
  method DequeueKeepsCount() returns (empty: bool, count: int, reachable: bool)
    ensures !empty && count == 2 && !reachable
  {
    var q := new Queue<int>();
    q.Enqueue(1);
    q.Dequeue();
    empty := q.Empty();
    q.Enqueue(2);
    count := q.GetLength();
    reachable := q.front != null;
  }

  /** With the corrected dequeue the same steps leave a one-item queue reaching 2 from `front`. */
  method DequeueCorrectedKeepsCount() returns (empty: bool, count: int, first: int)
    ensures empty && count == 1 && first == 2
  {
    var q := new Queue<int>();
    q.Enqueue(1);
    q.DequeueCorrected();
    empty := q.Empty();
    q.Enqueue(2);
    count := q.GetLength();
    first := q.GetFront();
  }
}
