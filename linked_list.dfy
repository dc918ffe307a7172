/**
 * The singly linked list of Linked_List.h: nodes linked by `next` from `head` to
 * `tail`, with a `length` count.  Unlike the doubly linked list, popping from an empty
 * list throws, and there is a linear `find`.
 */
module SinglyLinkedList {
  import opened SeqOps
  import opened Errors

  class Node<T> {
    var item: T
    var next: Node?<T>

    constructor (value: T)
      ensures item == value && next == null
    {
      item, next := value, null;
    }
  }

  function NextOf<T>(ns: seq<Node<T>>, i: nat): Node?<T> {
    if i + 1 < |ns| then ns[i + 1] else null
  }

  function PrevOf<T>(ns: seq<Node<T>>, i: nat): Node?<T> {
    if 0 < i <= |ns| then ns[i - 1] else null
  }

  function First<T>(ns: seq<Node<T>>): Node?<T> {
    if ns == [] then null else ns[0]
  }

  function Last<T>(ns: seq<Node<T>>): Node?<T> {
    if ns == [] then null else ns[|ns| - 1]
  }

  /**
   * After the three-pointer pass every node points back at its predecessor; read in
   * the reverse order `r` of `ns`, the nodes then form a well-formed forward chain.
   */
  lemma ReversedChain<T>(ns: seq<Node<T>>, items: seq<T>, r: seq<Node<T>>, ritems: seq<T>)
    requires |ns| == |items| == |r| == |ritems|
    requires forall j :: 0 <= j < |r| ==> r[j] == ns[|ns| - 1 - j]
    requires forall j :: 0 <= j < |ritems| ==> ritems[j] == items[|items| - 1 - j]
    requires forall i {:trigger ns[i].item} :: 0 <= i < |ns| ==> ns[i].item == items[i]
    requires forall i {:trigger ns[i].next} :: 0 <= i < |ns| ==> ns[i].next == PrevOf(ns, i)
    ensures forall j {:trigger r[j].item} :: 0 <= j < |r| ==> r[j].item == ritems[j]
    ensures forall j {:trigger r[j].next} :: 0 <= j < |r| ==> r[j].next == NextOf(r, j)
    ensures First(r) == Last(ns) && Last(r) == First(ns)
  {
    var n := |ns|;
    forall j | 0 <= j < n
      ensures r[j].item == ritems[j]
    {
      assert r[j] == ns[n - 1 - j];
    }
    forall j | 0 <= j < n
      ensures r[j].next == NextOf(r, j)
    {
      assert r[j] == ns[n - 1 - j];
      if j + 1 < n {
        assert r[j + 1] == ns[n - 1 - (j + 1)];
      }
    }
  }

  /** What `find` returns for a value that is not in the list: `static_cast<size_t>(-1)`. */
  const NotFound: nat := 0xFFFF_FFFF_FFFF_FFFF

  class List<T(==)> {
    var head: Node?<T>
    var tail: Node?<T>
    var length: nat
    ghost var Contents: seq<T>
    ghost var Nodes: seq<Node<T>>

    /** The chain from `head` along `next` is `Nodes`, holding `Contents`; `tail` is its last node. */
    ghost predicate Valid()
      reads this, Nodes
    {
      && |Nodes| == |Contents| == length
      && Distinct(Nodes)
      && (forall i {:trigger Nodes[i].item} :: 0 <= i < |Nodes| ==> Nodes[i].item == Contents[i])
      && (forall i {:trigger Nodes[i].next} :: 0 <= i < |Nodes| ==> Nodes[i].next == NextOf(Nodes, i))
      && head == First(Nodes)
      && tail == Last(Nodes)
    }

    constructor ()
      ensures Valid() && Contents == [] && head == null && tail == null
    {
      head, tail, length := null, null, 0;
      Contents, Nodes := [], [];
    }

    /** Deep copy: new nodes holding the items of `other`, in order. */
    constructor Copy(other: List<T>)
      requires other.Valid()
      ensures Valid() && Contents == other.Contents
      ensures forall i :: 0 <= i < |Nodes| ==> fresh(Nodes[i])
    {
      head, tail, length := null, null, 0;
      Contents, Nodes := [], [];
      new;
      var temp := other.head;
      ghost var k := 0;
      while temp != null
        invariant 0 <= k <= |other.Nodes|
        invariant temp == (if k < |other.Nodes| then other.Nodes[k] else null)
        invariant Valid() && Contents == other.Contents[..k]
        invariant forall i :: 0 <= i < |Nodes| ==> fresh(Nodes[i])
        decreases |other.Nodes| - k
      {
        PushBack(temp.item);
        temp := temp.next;
        k := k + 1;
      }
    }

    /** Move: this list takes over the chain of `other`, which is left empty. */
    constructor Move(other: List<T>)
      requires other.Valid()
      modifies other
      ensures Valid() && Contents == old(other.Contents) && Nodes == old(other.Nodes)
      ensures other.Valid() && other.Contents == [] && other.head == null && other.tail == null
    {
      head, tail, length := other.head, other.tail, other.length;
      Contents, Nodes := other.Contents, other.Nodes;
      new;
      other.head, other.tail, other.length := null, null, 0;
      other.Contents, other.Nodes := [], [];
    }

    /** Copy assignment: unless `other` is this list, empty it and copy `other`. */
    method AssignCopy(other: List<T>)
      requires Valid() && other.Valid()
      modifies this, Nodes
      ensures Valid() && Contents == old(other.Contents)
      ensures other.Valid() && other.Contents == old(other.Contents)
      ensures this != other ==> forall i :: 0 <= i < |Nodes| ==> fresh(Nodes[i])
      ensures this == other ==> Nodes == old(Nodes)
    {
      if this != other {
        Clear();
        var temp := other.head;
        ghost var k := 0;
        label Copying:
        while temp != null
          modifies this
          invariant 0 <= k <= |other.Nodes|
          invariant temp == (if k < |other.Nodes| then other.Nodes[k] else null)
          invariant Valid() && Contents == other.Contents[..k]
          invariant forall i :: 0 <= i < |Nodes| ==> fresh@Copying(Nodes[i])
          decreases |other.Nodes| - k
        {
          PushBack(temp.item);
          temp := temp.next;
          k := k + 1;
        }
      }
    }

    /** Move assignment: unless `other` is this list, empty it and take over the chain of `other`. */
    method AssignMove(other: List<T>)
      requires Valid() && other.Valid()
      modifies this, other
      ensures Valid() && Contents == old(other.Contents)
      ensures this != other ==> other.Valid() && other.Contents == []
      ensures this != other ==> Nodes == old(other.Nodes)
      ensures this == other ==> Nodes == old(Nodes)
    {
      if this != other {
        Clear();
        head, tail, length := other.head, other.tail, other.length;
        Contents, Nodes := other.Contents, other.Nodes;
        other.head, other.tail, other.length := null, null, 0;
        other.Contents, other.Nodes := [], [];
      }
    }

    predicate Empty()
      reads this, Nodes
      requires Valid()
      ensures Empty() <==> Contents == []
      ensures Empty() <==> head == null && tail == null
    {
      length == 0
    }

    function Size(): (n: nat)
      reads this, Nodes
      requires Valid()
      ensures n == |Contents|
    {
      length
    }

    method PushBack(value: T)
      requires Valid()
      modifies this, Nodes
      ensures Valid() && Contents == old(Contents) + [value]
      ensures fresh(tail) && Nodes == old(Nodes) + [tail]
      ensures old(Contents) == [] ==> head == tail
    {
      var n := new Node(value);
      if length == 0 {
        head, tail := n, n;
      } else {
        tail.next := n;
        tail := n;
      }
      length := length + 1;
      Nodes := Nodes + [n];
      Contents := Contents + [value];
    }

    method PushFront(value: T)
      requires Valid()
      modifies this, Nodes
      ensures Valid() && Contents == [value] + old(Contents)
      ensures fresh(head) && Nodes == [head] + old(Nodes)
      ensures old(Contents) == [] ==> head == tail
    {
      var n := new Node(value);
      if length == 0 {
        head, tail := n, n;
      } else {
        n.next := head;
        head := n;
      }
      length := length + 1;
      Nodes := [n] + Nodes;
      Contents := [value] + Contents;
    }

    /** The walk insert and erase share: `steps` hops along `next` from `head`. */
    method Walk(steps: nat) returns (node: Node<T>)
      requires Valid() && steps < length
      ensures node == Nodes[steps]
    {
      node := head;
      var i := 0;
      while i < steps
        invariant 0 <= i <= steps
        invariant node == Nodes[i]
      {
        node := node.next;
        i := i + 1;
      }
    }

    method Insert(index: nat, value: T) returns (r: Outcome)
      requires Valid()
      modifies this, Nodes
      ensures Valid()
      ensures old(length) < index ==> r == Thrown(OutOfRange) && Contents == old(Contents)
      ensures index <= old(length) ==> r == Done && Contents == InsertAt(old(Contents), index, value)
      ensures old(length) < index ==> Nodes == old(Nodes)
      ensures index <= old(length) ==> fresh(Nodes[index]) && Nodes == InsertAt(old(Nodes), index, Nodes[index])
    {
      if index > length {
        return Thrown(OutOfRange);
      }
      if index == 0 {
        PushFront(value);
      } else if index == length {
        PushBack(value);
      } else {
        SpliceAfter(index, value);
      }
      r := Done;
    }

    /** The inner case of insert: a new node goes right after position `index - 1`. */
    method SpliceAfter(index: nat, value: T)
      requires Valid() && 0 < index < length
      modifies this, Nodes
      ensures Valid() && Contents == InsertAt(old(Contents), index, value)
      ensures fresh(Nodes[index]) && Nodes == InsertAt(old(Nodes), index, Nodes[index])
    {
      var n := new Node(value);
      DistinctInserted(Nodes, index, n);
      var temp := Walk(index - 1);
      n.next := temp.next;
      temp.next := n;
      length := length + 1;
      Nodes := InsertAt(Nodes, index, n);
      Contents := InsertAt(Contents, index, value);
    }

    /** Removes the first item; throws runtime_error on an empty list. */
    method PopFront() returns (r: Outcome)
      requires Valid()
      modifies this
      ensures Valid()
      ensures old(Contents) == [] ==> r == Thrown(RuntimeError) && Contents == []
      ensures old(Contents) != [] ==> r == Done && Contents == old(Contents)[1..]
      ensures Nodes == if old(Nodes) == [] then [] else old(Nodes)[1..]
    {
      if length == 0 {
        return Thrown(RuntimeError);
      }
      head := head.next;
      if head == null {
        tail := null;
      }
      length := length - 1;
      Nodes := Nodes[1..];
      Contents := Contents[1..];
      r := Done;
    }

    /**
     * Removes the last item; throws runtime_error on an empty list.  With more than
     * one node it walks from `head` to the node before `tail`, which becomes the tail.
     */
    method PopBack() returns (r: Outcome)
      requires Valid()
      modifies this, Nodes
      ensures Valid()
      ensures old(Contents) == [] ==> r == Thrown(RuntimeError) && Contents == []
      ensures old(Contents) != [] ==> r == Done && Contents == old(Contents)[..|old(Contents)| - 1]
      ensures Nodes == if old(Nodes) == [] then [] else old(Nodes)[..|old(Nodes)| - 1]
    {
      if length == 0 {
        return Thrown(RuntimeError);
      }
      if head == tail {
        head, tail := null, null;
      } else {
        var temp := head;
        ghost var k := 0;
        while temp.next != tail
          invariant 0 <= k <= |Nodes| - 2
          invariant temp == Nodes[k]
          decreases |Nodes| - k
        {
          temp := temp.next;
          k := k + 1;
        }
        tail := temp;
        tail.next := null;
      }
      length := length - 1;
      Nodes := Nodes[..|Nodes| - 1];
      Contents := Contents[..|Contents| - 1];
      r := Done;
    }

    method Erase(index: nat) returns (r: Outcome)
      requires Valid()
      modifies this, Nodes
      ensures Valid()
      ensures old(length) <= index ==> r == Thrown(OutOfRange) && Contents == old(Contents)
      ensures index < old(length) ==> r == Done && Contents == RemoveAt(old(Contents), index)
      ensures old(length) <= index ==> Nodes == old(Nodes)
      ensures index < old(length) ==> Nodes == RemoveAt(old(Nodes), index)
    {
      if index >= length {
        return Thrown(OutOfRange);
      }
      if index == 0 {
        r := PopFront();
      } else if index == length - 1 {
        r := PopBack();
      } else {
        UnlinkAfter(index);
        r := Done;
      }
    }

    /** The inner case of erase: the node after position `index - 1` is linked out. */
    method UnlinkAfter(index: nat)
      requires Valid() && 0 < index < length - 1
      modifies this, Nodes
      ensures Valid() && Contents == RemoveAt(old(Contents), index)
      ensures Nodes == RemoveAt(old(Nodes), index)
    {
      var temp := Walk(index - 1);
      var toDelete := temp.next;
      temp.next := toDelete.next;
      length := length - 1;
      Nodes := RemoveAt(Nodes, index);
      Contents := RemoveAt(Contents, index);
    }

    /** Empties the list by popping the front until it is empty. */
    method Clear()
      requires Valid()
      modifies this
      ensures Valid() && Contents == [] && head == null && tail == null
    {
      while length != 0
        invariant Valid()
        invariant forall i :: 0 <= i < |Nodes| ==> Nodes[i] in old(Nodes)
        decreases length
      {
        var _ := PopFront();
      }
    }

    /**
     * The prev/curr/next loop of `reverse`: it turns every `next` link around, so
     * each node points at its former predecessor; it ends with `prev` on the old tail.
     */
    method TurnLinks() returns (prev: Node?<T>)
      requires Valid() && length >= 2
      modifies Nodes
      ensures forall i {:trigger Nodes[i].next} :: 0 <= i < |Nodes| ==> Nodes[i].next == PrevOf(Nodes, i)
      ensures forall i {:trigger Nodes[i].item} :: 0 <= i < |Nodes| ==> Nodes[i].item == Contents[i]
      ensures prev == Last(Nodes)
    {
      prev := null;
      var curr := head;
      var next: Node?<T> := null;
      ghost var k := 0;
      while curr != null
        invariant 0 <= k <= |Nodes|
        invariant curr == (if k < |Nodes| then Nodes[k] else null)
        invariant prev == (if k > 0 then Nodes[k - 1] else null)
        invariant forall i {:trigger Nodes[i].next} :: 0 <= i < |Nodes| ==>
          Nodes[i].next == if i < k then PrevOf(Nodes, i) else NextOf(Nodes, i)
        invariant forall i {:trigger Nodes[i].item} :: 0 <= i < |Nodes| ==> Nodes[i].item == Contents[i]
        decreases |Nodes| - k
      {
        next := curr.next;
        curr.next := prev;
        prev := curr;
        curr := next;
        k := k + 1;
      }
    }

    /** In-place reversal with the prev/curr/next pointers; the old head becomes the tail. */
    method Reverse()
      requires Valid()
      modifies this, Nodes
      ensures Valid() && Contents == Reversed(old(Contents))
      ensures head == old(tail) && tail == old(head)
      ensures forall n :: n in Nodes ==> n in old(Nodes)
    {
      if length <= 1 {
        return;
      }
      var prev := TurnLinks();
      // The source sets `tail = head` before the loop; the loop never reads `tail`.
      tail := head;
      head := prev;
      ghost var r, ri := Reversed(Nodes), Reversed(Contents);
      ReversedIndices(Nodes);
      ReversedIndices(Contents);
      ReversedChain(Nodes, Contents, r, ri);
      DistinctReversed(Nodes);
      ReversedElements(Nodes);
      Nodes, Contents := r, ri;
    }

    /** The position of the first item equal to `value`, or NotFound when there is none. */
    method Find(value: T) returns (index: nat)
      requires Valid()
      ensures value in Contents ==>
        index < |Contents| && Contents[index] == value && value !in Contents[..index]
      ensures value !in Contents ==> index == NotFound
    {
      var temp := head;
      index := 0;
      while temp != null
        invariant 0 <= index <= |Nodes|
        invariant temp == (if index < |Nodes| then Nodes[index] else null)
        invariant value !in Contents[..index]
        decreases |Nodes| - index
      {
        if temp.item == value {
          return;
        }
        temp := temp.next;
        index := index + 1;
      }
      assert Contents[..index] == Contents;
      index := NotFound;
    }
  }

  /**
   * Copy assignment makes an independent list: growing the copy leaves the source's
   * items as they were.
   */
  method CopyIsIndependent(a: List<int>, b: List<int>, v: int)
    requires a.Valid() && b.Valid() && a != b
    modifies a, a.Nodes
    ensures a.Valid() && a.Contents == old(b.Contents) + [v]
    ensures b.Valid() && b.Contents == old(b.Contents)
  {
    a.AssignCopy(b);
    a.PushBack(v);
  }

  /** test.cpp's test_single_linked_list, first half: the pushes and insert give [0, 1, 5, 2, 3]. */
  method BuildTestList() returns (list: List<int>)
    ensures fresh(list) && list.Valid() && list.Contents == [0, 1, 5, 2, 3]
    ensures forall i :: 0 <= i < |list.Nodes| ==> fresh(list.Nodes[i])
  {
    list := new List<int>();
    list.PushBack(1);
    list.PushBack(2);
    list.PushBack(3);
    list.PushFront(0);
    var _ := list.Insert(2, 5);
    assert forall i :: 0 <= i < |list.Nodes| ==> list.Nodes[i] in list.Nodes;
  }

  /** The second half: pop_front, pop_back and erase(1) leave [1, 2]; none of them throws. */
  method ShrinkTestList(list: List<int>) returns (outcomes: seq<Outcome>)
    requires list.Valid() && list.Contents == [0, 1, 5, 2, 3]
    modifies list, list.Nodes
    ensures list.Valid() && list.Contents == [1, 2]
    ensures outcomes == [Done, Done, Done]
    ensures forall i :: 0 <= i < |list.Nodes| ==> list.Nodes[i] in old(list.Nodes)
  {
    var a := list.PopFront();
    var b := list.PopBack();
    assert list.Contents == [1, 5, 2];
    var c := list.Erase(1);
    outcomes := [a, b, c];
    assert forall i :: 0 <= i < |list.Nodes| ==> list.Nodes[i] in list.Nodes;
  }

  /**
   * The rest of test_single_linked_list: reverse turns [1, 2] into [2, 1], so find(2)
   * is 0 and find of an absent value is NotFound; a move construction hands the two
   * items over and leaves the source empty.
   */
  method TestScenario() returns (found: nat, missing: nat, moved: seq<int>, movedSize: nat, sourceEmpty: bool)
    ensures found == 0 && missing == NotFound
    ensures moved == [2, 1] && movedSize == 2 && sourceEmpty
  {
    var list := BuildTestList();
    var _ := ShrinkTestList(list);
    list.Reverse();
    found := list.Find(2);
    missing := list.Find(7);
    assert forall i :: 0 <= i < |list.Nodes| ==> list.Nodes[i] in list.Nodes;
    var list2 := new List<int>.Move(list);
    movedSize := list2.Size();
    var first := list2.Walk(0);
    var second := list2.Walk(1);
    moved := [first.item, second.item];
    sourceEmpty := list.Empty();
  }
}
