/**
 * The doubly linked list of Doubly_Linked_List.h: a chain of nodes with `next` and
 * `prev` links, `front`/`back` end pointers and a `length` count, plus its
 * bidirectional iterator.  The ghost sequence `Nodes` names the chain in order and
 * `Contents` the items it holds.
 */
module DoublyLinkedList {
  import opened SeqOps
  import opened Errors

  class Node<T> {
    var next: Node?<T>
    var prev: Node?<T>
    var item: T

    constructor (value: T)
      ensures next == null && prev == null && item == value
    {
      next, prev, item := null, null, value;
    }
  }

  /** The node after position `i` of the chain `ns`, or null after the last one. */
  function NextOf<T>(ns: seq<Node<T>>, i: nat): Node?<T> {
    if i + 1 < |ns| then ns[i + 1] else null
  }

  /** The node before position `i` of the chain `ns`, or null before the first one. */
  function PrevOf<T>(ns: seq<Node<T>>, i: nat): Node?<T> {
    if 0 < i <= |ns| then ns[i - 1] else null
  }

  function First<T>(ns: seq<Node<T>>): Node?<T> {
    if ns == [] then null else ns[0]
  }

  function Last<T>(ns: seq<Node<T>>): Node?<T> {
    if ns == [] then null else ns[|ns| - 1]
  }

  class List<T> {
    var front: Node?<T>
    var back: Node?<T>
    var length: nat
    ghost var Contents: seq<T>
    ghost var Nodes: seq<Node<T>>

    /**
     * The `next` and `prev` links join `Nodes` into one chain holding `Contents`, and
     * `length` counts it.  Says nothing about `front` or `back`.
     */
    ghost predicate Linked()
      reads this, Nodes
    {
      && |Nodes| == |Contents| == length
      && Distinct(Nodes)
      && (forall i {:trigger Nodes[i].item} :: 0 <= i < |Nodes| ==> Nodes[i].item == Contents[i])
      && (forall i {:trigger Nodes[i].next} :: 0 <= i < |Nodes| ==> Nodes[i].next == NextOf(Nodes, i))
      && (forall i {:trigger Nodes[i].prev} :: 0 <= i < |Nodes| ==> Nodes[i].prev == PrevOf(Nodes, i))
    }

    /**
     * The chain read from `front` along `next` (and back along `prev`) is exactly
     * `Nodes`, holding `Contents`.  Says nothing about `back`.
     */
    ghost predicate Chained()
      reads this, Nodes
    {
      Linked() && front == First(Nodes)
    }

    /** The list invariant: a well-formed chain whose `back` is its last node. */
    ghost predicate Valid()
      reads this, Nodes
    {
      Chained() && back == Last(Nodes)
    }

    constructor ()
      ensures Valid() && Contents == [] && front == null && back == null
    {
      front, back, length := null, null, 0;
      Contents, Nodes := [], [];
    }

    /** Deep copy: new nodes holding the items of `other`, in order. */
    constructor Copy(other: List<T>)
      requires other.Chained()
      ensures Valid() && Contents == other.Contents
      ensures forall i :: 0 <= i < |Nodes| ==> fresh(Nodes[i])
    {
      front, back, length := null, null, 0;
      Contents, Nodes := [], [];
      new;
      var temp := other.front;
      ghost var k := 0;
      while temp != null
        invariant 0 <= k <= |other.Nodes|
        invariant temp == (if k < |other.Nodes| then other.Nodes[k] else null)
        invariant Valid() && Contents == other.Contents[..k]
        invariant forall i :: 0 <= i < |Nodes| ==> fresh(Nodes[i])
        decreases |other.Nodes| - k
      {
        PushBack(temp.item);
        temp := temp.next;
        k := k + 1;
      }
    }

    /** Move: this list takes over the chain of `other`, which is left empty. */
    constructor Move(other: List<T>)
      requires other.Chained()
      modifies other
      ensures Chained() && Contents == old(other.Contents) && Nodes == old(other.Nodes)
      ensures front == old(other.front) && back == old(other.back)
      ensures old(other.Valid()) ==> Valid()
      ensures other.Valid() && other.Contents == [] && other.front == null && other.back == null
    {
      front, back, length := other.front, other.back, other.length;
      Contents, Nodes := other.Contents, other.Nodes;
      new;
      other.front, other.back, other.length := null, null, 0;
      other.Contents, other.Nodes := [], [];
    }

    /** Copy assignment: unless `other` is this list, drop all nodes and copy `other`. */
    method AssignCopy(other: List<T>)
      requires Valid() && other.Chained()
      modifies this, Nodes
      ensures Valid() && Contents == old(other.Contents)
      ensures other.Chained() && other.Contents == old(other.Contents)
      ensures old(other.Valid()) ==> other.Valid()
      ensures this != other ==> forall i :: 0 <= i < |Nodes| ==> fresh(Nodes[i])
      ensures this == other ==> Nodes == old(Nodes)
    {
      if this != other {
        Clear();
        var temp := other.front;
        ghost var k := 0;
        label Copying:
        while temp != null
          modifies this
          invariant 0 <= k <= |other.Nodes|
          invariant temp == (if k < |other.Nodes| then other.Nodes[k] else null)
          invariant Valid() && Contents == other.Contents[..k]
          invariant forall i :: 0 <= i < |Nodes| ==> fresh@Copying(Nodes[i])
          decreases |other.Nodes| - k
        {
          PushBack(temp.item);
          temp := temp.next;
          k := k + 1;
        }
      }
    }

    /** Move assignment: unless `other` is this list, drop all nodes and take over its chain. */
    method AssignMove(other: List<T>)
      requires Valid() && other.Chained()
      modifies this, other
      ensures Chained() && Contents == old(other.Contents)
      ensures old(other.Valid()) ==> Valid()
      ensures this != other ==> other.Valid() && other.Contents == []
      ensures this != other ==> Nodes == old(other.Nodes)
      ensures this != other ==> front == old(other.front) && back == old(other.back)
      ensures this == other ==> Nodes == old(Nodes) && front == old(front) && back == old(back)
    {
      if this != other {
        Clear();
        front, back, length := other.front, other.back, other.length;
        Contents, Nodes := other.Contents, other.Nodes;
        other.front, other.back, other.length := null, null, 0;
        other.Contents, other.Nodes := [], [];
      }
    }

    function Size(): (n: nat)
      reads this, Nodes
      requires Chained()
      ensures n == |Contents|
    {
      length
    }

    predicate Empty()
      reads this, Nodes
      requires Valid()
      ensures Empty() <==> Contents == []
      ensures Empty() <==> front == null && back == null
    {
      length == 0
    }

    method PushBack(value: T)
      requires Valid()
      modifies this, Nodes
      ensures Valid() && Contents == old(Contents) + [value]
      ensures fresh(back) && Nodes == old(Nodes) + [back]
      ensures old(Contents) == [] ==> front == back
    {
      var n := new Node(value);
      if length == 0 {
        front, back := n, n;
      } else {
        back.next := n;
        n.prev := back;
        back := n;
      }
      length := length + 1;
      Nodes := Nodes + [n];
      Contents := Contents + [value];
    }

    method PushFront(value: T)
      requires Valid()
      modifies this, Nodes
      ensures Valid() && Contents == [value] + old(Contents)
      ensures fresh(front) && Nodes == [front] + old(Nodes)
      ensures old(Contents) == [] ==> front == back
    {
      var n := new Node(value);
      if length == 0 {
        front, back := n, n;
      } else {
        front.prev := n;
        n.next := front;
        front := n;
      }
      length := length + 1;
      Nodes := [n] + Nodes;
      Contents := [value] + Contents;
    }

    /**
     * The walk insert and erase share: from `front` along `next` when `index` lies in
     * the first half, otherwise from `back` along `prev`.  Either way it ends at the
     * node in position `index`, after at most half the list.
     */
    method Locate(index: nat) returns (node: Node<T>, ghost steps: nat)
      requires Valid() && index < length
      ensures node == Nodes[index]
      ensures steps == (if index <= length / 2 then index else length - 1 - index)
      ensures steps <= length / 2
    {
      steps := 0;
      if index <= length / 2 {
        node := front;
        var i := 0;
        while i < index
          invariant 0 <= i <= index
          invariant node == Nodes[i]
          invariant steps == i
        {
          node := node.next;
          i := i + 1;
          steps := steps + 1;
        }
      } else {
        node := back;
        var i := length - 1;
        while i > index
          invariant index <= i <= length - 1
          invariant node == Nodes[i]
          invariant steps == length - 1 - i
        {
          node := node.prev;
          i := i - 1;
          steps := steps + 1;
        }
      }
    }

    method Insert(index: nat, value: T) returns (r: Outcome)
      requires Valid()
      modifies this, Nodes
      ensures Valid()
      ensures old(length) < index ==> r == Thrown(OutOfRange) && Contents == old(Contents)
      ensures index <= old(length) ==> r == Done && Contents == InsertAt(old(Contents), index, value)
      ensures old(length) < index ==> Nodes == old(Nodes)
      ensures index <= old(length) ==> fresh(Nodes[index]) && Nodes == InsertAt(old(Nodes), index, Nodes[index])
    {
      if index > length {
        return Thrown(OutOfRange);
      }
      if index == 0 {
        PushFront(value);
      } else if index == length {
        PushBack(value);
      } else {
        SpliceBefore(index, value);
      }
      r := Done;
    }

    /** The inner case of insert: a new node goes between positions `index - 1` and `index`. */
    method SpliceBefore(index: nat, value: T)
      requires Valid() && 0 < index < length
      modifies this, Nodes
      ensures Valid() && Contents == InsertAt(old(Contents), index, value)
      ensures fresh(Nodes[index]) && Nodes == InsertAt(old(Nodes), index, Nodes[index])
    {
      var temp, _ := Locate(index);
      var n := new Node(value);
      DistinctInserted(Nodes, index, n);
      n.next := temp;
      n.prev := temp.prev;
      temp.prev.next := n;
      temp.prev := n;
      length := length + 1;
      Nodes := InsertAt(Nodes, index, n);
      Contents := InsertAt(Contents, index, value);
    }

    /** Removes the last item; on an empty list it does nothing. */
    method PopBack()
      requires Valid()
      modifies this, Nodes
      ensures Valid()
      ensures old(Contents) == [] ==> Contents == []
      ensures old(Contents) != [] ==> Contents == old(Contents)[..|old(Contents)| - 1]
      ensures Nodes == if old(Nodes) == [] then [] else old(Nodes)[..|old(Nodes)| - 1]
    {
      if length == 0 {
        return;
      }
      if front == back {
        front, back := null, null;
      } else {
        back := back.prev;
        back.next := null;
      }
      length := length - 1;
      Nodes := Nodes[..|Nodes| - 1];
      Contents := Contents[..|Contents| - 1];
    }

    /** Removes the first item; on an empty list it does nothing. */
    method PopFront()
      requires Valid()
      modifies this, Nodes
      ensures Valid()
      ensures old(Contents) == [] ==> Contents == []
      ensures old(Contents) != [] ==> Contents == old(Contents)[1..]
      ensures Nodes == if old(Nodes) == [] then [] else old(Nodes)[1..]
    {
      if length == 0 {
        return;
      }
      if front == back {
        front, back := null, null;
      } else {
        front := front.next;
        front.prev := null;
      }
      length := length - 1;
      Nodes := Nodes[1..];
      Contents := Contents[1..];
    }

    method Erase(index: nat) returns (r: Outcome)
      requires Valid()
      modifies this, Nodes
      ensures Valid()
      ensures old(length) <= index ==> r == Thrown(OutOfRange) && Contents == old(Contents)
      ensures index < old(length) ==> r == Done && Contents == RemoveAt(old(Contents), index)
      ensures old(length) <= index ==> Nodes == old(Nodes)
      ensures index < old(length) ==> Nodes == RemoveAt(old(Nodes), index)
    {
      if index >= length {
        return Thrown(OutOfRange);
      }
      r := Done;
      if index == 0 {
        PopFront();
        return;
      }
      if index == length - 1 {
        PopBack();
        return;
      }
      Unlink(index);
    }

    /** The inner case of erase: the node at `index` is linked out of the chain. */
    method Unlink(index: nat)
      requires Valid() && 0 < index < length - 1
      modifies this, Nodes
      ensures Valid() && Contents == RemoveAt(old(Contents), index)
      ensures Nodes == RemoveAt(old(Nodes), index)
    {
      var temp, _ := Locate(index);
      DistinctRemoved(Nodes, index);
      temp.next.prev := temp.prev;
      temp.prev.next := temp.next;
      length := length - 1;
      Nodes := RemoveAt(Nodes, index);
      Contents := RemoveAt(Contents, index);
    }

    /**
     * Drops every node.  The source's walk over the chain only frees memory, so
     * nothing is required of the chain beforehand.
     */
    method Clear()
      modifies this
      ensures Valid() && Contents == []
      ensures front == null && back == null && length == 0
    {
      front, back := null, null;
      length := 0;
      Contents, Nodes := [], [];
    }

    /**
     * The pointer-swapping pass of reverse: walking from `front`, each node's `next`
     * and `prev` are exchanged.  Returns the final `temp_ptr`, the original `prev` of
     * the old back node.
     */
    method SwapAllLinks() returns (tempPtr: Node?<T>)
      requires Chained() && length >= 2
      modifies Nodes
      ensures forall i {:trigger Nodes[i].next} :: 0 <= i < |Nodes| ==> Nodes[i].next == PrevOf(Nodes, i)
      ensures forall i {:trigger Nodes[i].prev} :: 0 <= i < |Nodes| ==> Nodes[i].prev == NextOf(Nodes, i)
      ensures forall i {:trigger Nodes[i].item} :: 0 <= i < |Nodes| ==> Nodes[i].item == Contents[i]
      ensures tempPtr == Nodes[|Nodes| - 2]
    {
      var current := front;
      tempPtr := null;
      ghost var k := 0;
      while current != null
        invariant 0 <= k <= |Nodes|
        invariant current == (if k < |Nodes| then Nodes[k] else null)
        invariant tempPtr == (if k >= 2 then Nodes[k - 2] else null)
        invariant forall i {:trigger Nodes[i].next} :: 0 <= i < |Nodes| ==>
          Nodes[i].next == if i < k then PrevOf(Nodes, i) else NextOf(Nodes, i)
        invariant forall i {:trigger Nodes[i].prev} :: 0 <= i < |Nodes| ==>
          Nodes[i].prev == if i < k then NextOf(Nodes, i) else PrevOf(Nodes, i)
        invariant forall i {:trigger Nodes[i].item} :: 0 <= i < |Nodes| ==> Nodes[i].item == Contents[i]
        decreases |Nodes| - k
      {
        tempPtr := current.prev;
        current.prev := current.next;
        current.next := tempPtr;
        current := current.prev;
        k := k + 1;
      }
    }

    /** After the swapped pass, the reversed node sequence is a well-formed chain. */
    lemma ReversedChain(ns: seq<Node<T>>, items: seq<T>)
      requires |ns| == |items|
      requires forall i {:trigger ns[i].item} :: 0 <= i < |ns| ==> ns[i].item == items[i]
      requires forall i {:trigger ns[i].next} :: 0 <= i < |ns| ==> ns[i].next == PrevOf(ns, i)
      requires forall i {:trigger ns[i].prev} :: 0 <= i < |ns| ==> ns[i].prev == NextOf(ns, i)
      ensures forall j {:trigger Reversed(ns)[j].item} :: 0 <= j < |ns| ==>
        Reversed(ns)[j].item == Reversed(items)[j]
      ensures forall j {:trigger Reversed(ns)[j].next} :: 0 <= j < |ns| ==>
        Reversed(ns)[j].next == NextOf(Reversed(ns), j)
      ensures forall j {:trigger Reversed(ns)[j].prev} :: 0 <= j < |ns| ==>
        Reversed(ns)[j].prev == PrevOf(Reversed(ns), j)
      ensures First(Reversed(ns)) == Last(ns) && Last(Reversed(ns)) == First(ns)
    {
      ReversedIndices(ns);
      ReversedIndices(items);
      MirroredNext(ns, Reversed(ns));
      MirroredPrev(ns, Reversed(ns));
    }

    /** A chain whose `next` links point backwards, read in the mirrored order. */
    lemma MirroredNext(ns: seq<Node<T>>, r: seq<Node<T>>)
      requires |r| == |ns| && forall j :: 0 <= j < |r| ==> r[j] == ns[|ns| - 1 - j]
      requires forall i {:trigger ns[i].next} :: 0 <= i < |ns| ==> ns[i].next == PrevOf(ns, i)
      ensures forall j {:trigger r[j].next} :: 0 <= j < |r| ==> r[j].next == NextOf(r, j)
    {
      forall j | 0 <= j < |r|
        ensures r[j].next == NextOf(r, j)
      {
        assert r[j] == ns[|ns| - 1 - j];
        if j + 1 < |r| {
          assert r[j + 1] == ns[|ns| - 1 - (j + 1)];
        }
      }
    }

    /** A chain whose `prev` links point forwards, read in the mirrored order. */
    lemma MirroredPrev(ns: seq<Node<T>>, r: seq<Node<T>>)
      requires |r| == |ns| && forall j :: 0 <= j < |r| ==> r[j] == ns[|ns| - 1 - j]
      requires forall i {:trigger ns[i].prev} :: 0 <= i < |ns| ==> ns[i].prev == NextOf(ns, i)
      ensures forall j {:trigger r[j].prev} :: 0 <= j < |r| ==> r[j].prev == PrevOf(r, j)
    {
      forall j | 0 <= j < |r|
        ensures r[j].prev == PrevOf(r, j)
      {
        assert r[j] == ns[|ns| - 1 - j];
        if j > 0 {
          assert r[j - 1] == ns[|ns| - 1 - (j - 1)];
        }
      }
    }

    /**
     * reverse() exactly as the source writes it.  The links end up reversed, but line
     * 306 has already moved `front` to the old last node, so the swap that follows puts
     * `front` on the old `back` and `back` on the old last node.  On a valid list both
     * are the old back node: the list invariant is lost.  On a list whose `back` is
     * already wrong, `front` lands inside the reversed chain.
     */
    method ReverseAsWritten()
      requires Chained()
      modifies this, Nodes
      ensures Linked() && length == old(length)
      ensures Nodes == Reversed(old(Nodes)) && Contents == Reversed(old(Contents))
      ensures old(length) < 2 ==> front == old(front) && back == old(back)
      ensures old(length) >= 2 ==> front == old(back) && back == Last(old(Nodes))
      ensures old(Valid()) ==> Chained() && (Valid() <==> old(length) < 2)
      ensures forall n :: n in Nodes ==> n in old(Nodes)
    {
      if length == 0 || length == 1 {
        ReversedShort(Nodes);
        ReversedShort(Contents);
        return;
      }
      var tempPtr := SwapAllLinks();
      if tempPtr != null {
        front := tempPtr.prev;
      }
      tempPtr := front;
      front := back;
      back := tempPtr;
      ReversedChain(Nodes, Contents);
      DistinctReversed(Nodes);
      ReversedElements(Nodes);
      Nodes, Contents := Reversed(Nodes), Reversed(Contents);
    }

    /**
     * reverse() as its comments intend: the link swap followed only by exchanging
     * `front` and `back`.  The invariant is kept and the items come out reversed.
     */
    method Reverse()
      requires Valid()
      modifies this, Nodes
      ensures Valid() && Contents == Reversed(old(Contents))
      ensures Nodes == Reversed(old(Nodes))
      ensures front == old(back) && back == old(front)
      ensures forall n :: n in Nodes ==> n in old(Nodes)
    {
      if length == 0 || length == 1 {
        ReversedShort(Nodes);
        ReversedShort(Contents);
        return;
      }
      var _ := SwapAllLinks();
      var tempPtr := front;
      front := back;
      back := tempPtr;
      ReversedChain(Nodes, Contents);
      DistinctReversed(Nodes);
      ReversedElements(Nodes);
      Nodes, Contents := Reversed(Nodes), Reversed(Contents);
    }

    method Begin() returns (it: Iterator<T>)
      ensures fresh(it) && it.current == front
    {
      it := new Iterator(front);
    }

    method End() returns (it: Iterator<T>)
      ensures fresh(it) && it.current == null
    {
      it := new Iterator(null);
    }

    /** A front-to-back traversal with the iterator, from begin() until it equals end(). */
    method Traverse() returns (items: seq<T>)
      requires Chained()
      ensures items == Contents
    {
      var it := Begin();
      var stop := End();
      items := [];
      ghost var k := 0;
      while !it.Equals(stop)
        invariant fresh(it) && stop.current == null
        invariant 0 <= k <= |Nodes|
        invariant it.current == (if k < |Nodes| then Nodes[k] else null)
        invariant items == Contents[..k]
        decreases |Nodes| - k
      {
        var x := it.Deref();
        items := items + [x.value];
        it.Increment();
        k := k + 1;
      }
    }
  }

  /** The first half of test.cpp's list steps: [1,2,3], push_front 0, insert(2, 5). */
  method BuildTestList() returns (list: List<int>)
    ensures fresh(list) && list.Valid() && list.Contents == [0, 1, 5, 2, 3]
    ensures forall i :: 0 <= i < |list.Nodes| ==> fresh(list.Nodes[i])
  {
    list := new List<int>();
    list.PushBack(1);
    list.PushBack(2);
    list.PushBack(3);
    list.PushFront(0);
    var _ := list.Insert(2, 5);
    assert forall i :: 0 <= i < |list.Nodes| ==> list.Nodes[i] in list.Nodes;
  }

  /** The second half: pop_front, pop_back and erase(1) leave [1, 2]. */
  method ShrinkTestList(list: List<int>)
    requires list.Valid() && list.Contents == [0, 1, 5, 2, 3]
    modifies list, list.Nodes
    ensures list.Valid() && list.Contents == [1, 2]
    ensures forall i :: 0 <= i < |list.Nodes| ==> list.Nodes[i] in old(list.Nodes)
  {
    list.PopFront();
    list.PopBack();
    assert list.Contents == [1, 5, 2];
    var _ := list.Erase(1);
    assert forall i :: 0 <= i < |list.Nodes| ==> list.Nodes[i] in list.Nodes;
  }

  /**
   * Copy assignment makes an independent list: growing the copy leaves the source's
   * items as they were.
   */
  method CopyIsIndependent(a: List<int>, b: List<int>, v: int)
    requires a.Valid() && b.Valid() && a != b
    modifies a, a.Nodes
    ensures a.Valid() && a.Contents == old(b.Contents) + [v]
    ensures b.Valid() && b.Contents == old(b.Contents)
  {
    a.AssignCopy(b);
    a.PushBack(v);
  }

  /**
   * test.cpp's test_doubly_linked_list, with the corrected reverse in place of the
   * source's: after the steps
   * above the list is [1, 2]; reverse gives [2, 1]; a move construction hands that to
   * a new list and leaves the source empty.
   */
  method TestScenario() returns (moved: seq<int>, movedSize: nat, sourceSize: nat)
    ensures moved == [2, 1] && movedSize == 2 && sourceSize == 0
  {
    var list := BuildTestList();
    ShrinkTestList(list);
    list.Reverse();
    assert forall i :: 0 <= i < |list.Nodes| ==> list.Nodes[i] in list.Nodes;
    var list2 := new List<int>.Move(list);
    moved := list2.Traverse();
    movedSize := list2.Size();
    sourceSize := list.Size();
  }

  /**
   * test.cpp's test_doubly_linked_list with reverse() as written: the test's checks
   * still pass, the moved list reading 2, 1 from begin() to end() and counting two
   * items and the source empty, although both ends of the moved list name the same node.
   */
  method TestScenarioAsWritten() returns (moved: seq<int>, movedSize: nat, sourceEmpty: bool, sameEnds: bool)
    ensures moved == [2, 1] && movedSize == 2 && sourceEmpty && sameEnds
  {
    var list := BuildTestList();
    ShrinkTestList(list);
    list.ReverseAsWritten();
    var list2 := new List<int>.Move(list);
    moved := list2.Traverse();
    movedSize := list2.Size();
    sourceEmpty := list.Empty();
    sameEnds := list2.front == list2.back;
  }

  /**
   * reverse() as written on [1, 2]: the items now read 2, 1 from the front, yet the
   * back pointer names the node holding 2, the same node as the front.
   */
  method ReverseAsWrittenOnPair() returns (frontItem: int, backItem: int, sameNode: bool)
    ensures frontItem == 2 && backItem == 2 && sameNode
  {
    var list := new List<int>();
    list.PushBack(1);
    list.PushBack(2);
    list.ReverseAsWritten();
    frontItem := list.front.item;
    backItem := list.back.item;
    sameNode := list.front == list.back;
  }

  /**
   * reverse() as written, twice, on [1, 2]: the second pass starts from the broken
   * ends of the first, so `front` lands on the node holding 2, now the last of the
   * chain, and `back` on the node holding 1.  Walking from the front meets one item
   * while the count is still 2.
   */
  method ReverseTwiceAsWritten() returns (frontItem: int, frontIsLast: bool, backItem: int, count: nat)
    ensures frontItem == 2 && frontIsLast && backItem == 1 && count == 2
  {
    var list := new List<int>();
    list.PushBack(1);
    list.PushBack(2);
    list.ReverseAsWritten();
    list.ReverseAsWritten();
    frontItem := list.front.item;
    frontIsLast := list.front.next == null;
    backItem := list.back.item;
    count := list.length;
  }

  /**
   * operator== on iterators into one chain tells positions apart: iterators at
   * positions `i` and `j` (with `|Nodes|` for end()) are equal exactly when i == j.
   */
  lemma EqualsAtPositions<T>(list: List<T>, a: Iterator<T>, b: Iterator<T>, i: nat, j: nat)
    requires list.Chained() && i <= |list.Nodes| && j <= |list.Nodes|
    requires a.current == (if i < |list.Nodes| then list.Nodes[i] else null)
    requires b.current == (if j < |list.Nodes| then list.Nodes[j] else null)
    ensures a.Equals(b) <==> i == j
  {
  }

  /** A position in a list: a node, or null for past-the-end. */
  class Iterator<T> {
    var current: Node?<T>

    constructor (node: Node?<T>)
      ensures current == node
    {
      current := node;
    }

    /** operator* (and operator->): the item here, or a runtime_error past the end. */
    method Deref() returns (r: Result<T>)
      ensures current == null ==> r == Failure(RuntimeError)
      ensures current != null ==> r == Success(current.item)
    {
      if current == null {
        return Failure(RuntimeError);
      }
      return Success(current.item);
    }

    /** Prefix ++: follow `next`; a past-the-end iterator stays past the end. */
    method Increment()
      modifies this
      ensures current == if old(current) == null then null else old(current.next)
    {
      if current != null {
        current := current.next;
      }
    }

    /** Postfix ++: as prefix ++, returning a copy of the iterator as it was. */
    method PostIncrement() returns (was: Iterator<T>)
      modifies this
      ensures fresh(was) && was.current == old(current)
      ensures current == if old(current) == null then null else old(current.next)
    {
      was := new Iterator(current);
      if current != null {
        current := current.next;
      }
    }

    /** Prefix --: follow `prev`; a past-the-end iterator stays past the end. */
    method Decrement()
      modifies this
      ensures current == if old(current) == null then null else old(current.prev)
    {
      if current != null {
        current := current.prev;
      }
    }

    /** Postfix --: as prefix --, returning a copy of the iterator as it was. */
    method PostDecrement() returns (was: Iterator<T>)
      modifies this
      ensures fresh(was) && was.current == old(current)
      ensures current == if old(current) == null then null else old(current.prev)
    {
      was := new Iterator(current);
      if current != null {
        current := current.prev;
      }
    }

    /** operator== (operator!= is its negation): both name the same node, or both are past the end. */
    predicate Equals(other: Iterator<T>)
      reads this, other
    {
      current == other.current
    }
  }
}
