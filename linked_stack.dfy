/**
 * The linked stack of Linked_Stack.h: a chain of nodes from `top` along `next`, with a
 * `length` count.  Popping an empty stack only prints a message; `get_top` on an empty
 * stack prints one and returns the value `0` converted to the item type.
 */
module LinkedStack {
  import opened SeqOps

  class Node<T> {
    var item: T
    var next: Node?<T>

    constructor (value: T, link: Node?<T>)
      ensures item == value && next == link
    {
      item, next := value, link;
    }
  }

  function NextOf<T>(ns: seq<Node<T>>, i: nat): Node?<T> {
    if i + 1 < |ns| then ns[i + 1] else null
  }

  class Stack<T> {
    var top: Node?<T>
    var length: int
    /** What `return 0;` in `get_top` yields for the item type. */
    const zero: T
    /** The items from the top down. */
    ghost var Contents: seq<T>
    ghost var Nodes: seq<Node<T>>

    /** The chain from `top` along `next` is `Nodes`, holding `Contents` from the top down. */
    ghost predicate Valid()
      reads this, Nodes
    {
      && |Nodes| == |Contents| == length
      && Distinct(Nodes)
      && top == (if Nodes == [] then null else Nodes[0])
      && (forall i {:trigger Nodes[i].item} :: 0 <= i < |Nodes| ==> Nodes[i].item == Contents[i])
      && (forall i {:trigger Nodes[i].next} :: 0 <= i < |Nodes| ==> Nodes[i].next == NextOf(Nodes, i))
    }

    /** `Stack()`; `zero` stands for the item type's conversion of `0`. */
    constructor (zero: T)
      ensures Valid() && Contents == [] && this.zero == zero
    {
      top := null;
      length := 0;
      this.zero := zero;
      Contents := [];
      Nodes := [];
    }

    /** `empty()` tests `top`, not `length`. */
    predicate Empty()
      reads this, Nodes
      requires Valid()
      ensures Empty() <==> Contents == []
    {
      top == null
    }

    /** A new node holding `item` becomes the top. */
    method Push(item: T)
      requires Valid()
      modifies this
      ensures Valid() && Contents == [item] + old(Contents)
      ensures fresh(top) && Nodes == [top] + old(Nodes)
    {
      var node := new Node(item, top);
      top := node;
      length := length + 1;
      Contents := [item] + Contents;
      Nodes := [node] + Nodes;
    }

    /** `pop()`: unlinks the top node unless the stack is empty. */
    method Pop()
      requires Valid()
      modifies this, Nodes
      ensures Valid()
      ensures old(Contents) != [] ==> Contents == old(Contents)[1..] && Nodes == old(Nodes)[1..]
      ensures old(Contents) == [] ==> Contents == [] && Nodes == []
    {
      if top != null {
        Unlink();
      }
    }

    /**
     * `pop(t&)`: the top item is written to the caller's variable, here `current`, and
     * unlinked; on an empty stack the variable keeps its value.
     */
    method PopInto(current: T) returns (item: T)
      requires Valid()
      modifies this, Nodes
      ensures Valid()
      ensures old(Contents) != [] ==> item == old(Contents)[0] && Contents == old(Contents)[1..]
      ensures old(Contents) == [] ==> item == current && Contents == []
      ensures Nodes == if old(Nodes) == [] then [] else old(Nodes)[1..]
    {
      item := current;
      if top != null {
        item := top.item;
        Unlink();
      }
    }

    /** The shared body of both pops: `top` moves down and the old top's link is cut. */
    method Unlink()
      requires Valid() && top != null
      modifies this, Nodes
      ensures Valid() && Contents == old(Contents)[1..] && Nodes == old(Nodes)[1..]
    {
      var temp := top;
      top := top.next;
      temp.next := null;
      length := length - 1;
      Contents := Contents[1..];
      Nodes := Nodes[1..];
    }

    /** `get_top()`: the top item, or `zero` for an empty stack. */
    function GetTop(): (r: T)
      reads this, Nodes
      requires Valid()
      ensures Contents != [] ==> r == Contents[0]
      ensures Contents == [] ==> r == zero
    {
      if top != null then top.item else zero
    }
  }

  /**
   * test.cpp's test_linked_stack: pushes of 1, 2, 3, a pop that yields 3, a top of 2;
   * popping the rest empties the stack, a pop of the empty stack changes nothing, and
   * its top is then the zero value.
   */
  method TestScenario() returns (popped: int, nextTop: int, emptied: bool, topWhenEmpty: int)
    ensures popped == 3 && nextTop == 2 && emptied && topWhenEmpty == 0
  {
    var stack := new Stack<int>(0);
    stack.Push(1);
    stack.Push(2);
    stack.Push(3);
    popped := stack.PopInto(-1);
    nextTop := stack.GetTop();
    stack.Pop();
    stack.Pop();
    stack.Pop();
    emptied := stack.Empty();
    topWhenEmpty := stack.GetTop();
  }
}
