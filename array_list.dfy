/**
 * The bounded array list of Linked_List_Array.h (class `Array`): the first `length`
 * slots of a buffer of `maxSize` slots hold the items; insertions and erasures shift
 * the slots after the position in place.  Refused operations only print a message.
 */
module ArrayList {
  import opened SeqOps

  /** The largest capacity an `int` max_size can hold. */
  const MaxCapacity: nat := 0x7FFF_FFFF

  class Array<T(0)> {
    const maxSize: int
    var length: int
    const arr: array<T>

    ghost predicate Valid()
      reads this
    {
      arr.Length == maxSize && 0 <= length <= maxSize
    }

    /** The items: the first `length` slots of the buffer. */
    function Elements(): seq<T>
      reads this, arr
      requires Valid()
    {
      arr[..length]
    }

    /** `Array(size)`: an empty list of capacity `size`. */
    constructor (size: nat)
      requires size <= MaxCapacity
      ensures Valid() && Elements() == [] && maxSize == size && fresh(arr)
    {
      maxSize := size;
      arr := new T[size];
      length := 0;
    }

    predicate Empty()
      reads this, arr
      requires Valid()
      ensures Empty() <==> Elements() == []
    {
      length == 0
    }

    predicate Full()
      reads this, arr
      requires Valid()
      ensures Full() <==> |Elements()| == maxSize
    {
      length == maxSize
    }

    function GetLength(): (n: int)
      reads this, arr
      requires Valid()
      ensures n == |Elements()| && 0 <= n <= maxSize
    {
      length
    }

    /** `push_back`: writes at slot `length` unless the list is full. */
    method PushBack(value: T)
      requires Valid()
      modifies this, arr
      ensures Valid()
      ensures old(length) < maxSize ==> Elements() == old(Elements()) + [value]
      ensures old(length) == maxSize ==> Elements() == old(Elements())
    {
      if length != maxSize {
        arr[length] := value;
        length := length + 1;
      }
    }

    /** `push_front`: shifts every item one slot right and writes at slot 0, unless full. */
    method PushFront(value: T)
      requires Valid()
      modifies this, arr
      ensures Valid()
      ensures old(length) < maxSize ==> Elements() == [value] + old(Elements())
      ensures old(length) == maxSize ==> Elements() == old(Elements())
    {
      if length != maxSize {
        ShiftRight(0);
        arr[0] := value;
        length := length + 1;
      }
    }

    /**
     * `insert(pos, value)`: with room and `pos <= length` the items from `pos` on move
     * one slot right and `value` lands at `pos`; otherwise nothing changes.
     */
    method Insert(pos: nat, value: T)
      requires Valid()
      modifies this, arr
      ensures Valid()
      ensures old(length) < maxSize && pos <= old(length) ==>
        Elements() == InsertAt(old(Elements()), pos, value)
      ensures old(length) == maxSize || pos > old(length) ==> Elements() == old(Elements())
    {
      if length != maxSize && pos <= length {
        ShiftRight(pos);
        arr[pos] := value;
        length := length + 1;
      }
    }

    /** The loop `for (i = length; i > pos; --i) arr[i] = arr[i - 1];`. */
    method ShiftRight(pos: nat)
      requires Valid() && length < maxSize && pos <= length
      modifies arr
      ensures arr[..pos] == old(arr[..pos])
      ensures arr[pos + 1..length + 1] == old(arr[pos..length])
    {
      var i := length;
      while i > pos
        invariant pos <= i <= length
        invariant arr[..i] == old(arr[..i])
        invariant arr[i + 1..length + 1] == old(arr[i..length])
        decreases i
      {
        arr[i] := arr[i - 1];
        i := i - 1;
      }
    }

    /**
     * `erase(pos)` as written.  The guard admits `pos == length`: the shifting loop is
     * empty, but `length` still drops, so the last item is discarded.
     */
    method Erase(pos: nat)
      requires Valid()
      modifies this, arr
      ensures Valid()
      ensures old(length) > 0 && pos < old(length) ==> Elements() == RemoveAt(old(Elements()), pos)
      ensures old(length) > 0 && pos == old(length) ==> Elements() == old(Elements())[..old(length) - 1]
      ensures old(length) == 0 || pos > old(length) ==> Elements() == old(Elements())
    {
      if length != 0 && pos <= length {
        ShiftLeft(pos);
        length := length - 1;
      }
    }

    /** `erase(pos)` with the guard `pos < length`: only an existing item is removed. */
    method EraseCorrected(pos: nat)
      requires Valid()
      modifies this, arr
      ensures Valid()
      ensures pos < old(length) ==> Elements() == RemoveAt(old(Elements()), pos)
      ensures pos >= old(length) ==> Elements() == old(Elements())
    {
      if length != 0 && pos < length {
        ShiftLeft(pos);
        length := length - 1;
      }
    }

    /**
     * The loop `for (i = pos; i < length; ++i) arr[i] = arr[i + 1];`.  On a full list
     * its last step reads one slot past the buffer; the model keeps the slot's value
     * there instead, which is outside the items once `length` drops.
     */
    method ShiftLeft(pos: nat)
      requires Valid() && pos <= length
      modifies arr
      ensures arr[..pos] == old(arr[..pos])
      ensures pos < length ==> arr[pos..length - 1] == old(arr[pos + 1..length])
    {
      var i := pos;
      while i < length
        invariant pos <= i <= length
        invariant arr[..pos] == old(arr[..pos])
        invariant forall j :: pos <= j < i && j < length - 1 ==> arr[j] == old(arr[j + 1])
        invariant forall j :: i <= j < arr.Length ==> arr[j] == old(arr[j])
        decreases length - i
      {
        if i + 1 < arr.Length {
          arr[i] := arr[i + 1];
        }
        i := i + 1;
      }
    }

    /** `at(pos)`: the item at `pos`; any other position falls off the function's end. */
    function At(pos: nat): (r: T)
      reads this, arr
      requires Valid() && pos < length
      ensures r == Elements()[pos]
    {
      arr[pos]
    }

    /**
     * `update_at(pos, val)` as written: the write happens only when the list is not
     * full and `pos <= length`, so a full list refuses every update, and `pos == length`
     * writes the free slot after the items.
     */
    method UpdateAt(pos: nat, val: T)
      requires Valid()
      modifies arr
      ensures Valid()
      ensures old(length) < maxSize && pos < old(length) ==> Elements() == old(Elements())[pos := val]
      ensures old(length) == maxSize || pos >= old(length) ==> Elements() == old(Elements())
    {
      if length != maxSize && pos <= length {
        arr[pos] := val;
      }
    }

    /** `update_at` with the guard `pos < length`: every existing item can be replaced. */
    method UpdateAtCorrected(pos: nat, val: T)
      requires Valid()
      modifies arr
      ensures Valid()
      ensures pos < old(length) ==> Elements() == old(Elements())[pos := val]
      ensures pos >= old(length) ==> Elements() == old(Elements())
    {
      if pos < length {
        arr[pos] := val;
      }
    }

    /** `clear()`: the count drops to 0; the buffer is not touched. */
    method Clear()
      requires Valid()
      modifies this
      ensures Valid() && Elements() == [] && arr[..] == old(arr[..])
    {
      length := 0;
    }
  }

  /** A fresh list of capacity `size` after push_back of 1, 2 and 3. */
  method OneTwoThree(size: nat) returns (a: Array<int>)
    requires 3 <= size <= MaxCapacity
    ensures fresh(a) && fresh(a.arr) && a.Valid() && a.maxSize == size
    ensures a.Elements() == [1, 2, 3]
  {
    a := new Array<int>(size);
    a.PushBack(1);
    a.PushBack(2);
    a.PushBack(3);
  }

  /**
   * test.cpp's test_linked_list_array: capacity 5; push_back 1, 2, 3 and push_front 0
   * give [0, 1, 2, 3]; insert(2, 5) fills the list; erase(1) on the full list leaves
   * [0, 5, 2, 3]; push_back(6) fills it again.
   */
  method TestScenario() returns (items: seq<int>, size: int, full: bool)
    ensures items == [0, 5, 2, 3, 6] && size == 5 && full
  {
    var a := OneTwoThree(5);
    a.PushFront(0);
    a.Insert(2, 5);
    assert a.Elements() == [0, 1, 5, 2, 3];
    a.Erase(1);
    a.PushBack(6);
    items := a.Elements();
    size := a.GetLength();
    full := a.Full();
  }

  /** erase at the position just past the last item: [1, 2, 3] loses its 3. */
  method EraseAtLength() returns (asWritten: seq<int>, corrected: seq<int>)
    ensures asWritten == [1, 2] && corrected == [1, 2, 3]
  {
    var a := OneTwoThree(5);
    a.Erase(3);
    asWritten := a.Elements();
    var b := OneTwoThree(5);
    b.EraseCorrected(3);
    corrected := b.Elements();
  }

  /** update_at(0, 9) on a full list of capacity 2: as written nothing changes. */
  method UpdateOnFull() returns (asWritten: seq<int>, corrected: seq<int>)
    ensures asWritten == [1, 2] && corrected == [9, 2]
  {
    var a := new Array<int>(2);
    a.PushBack(1);
    a.PushBack(2);
    a.UpdateAt(0, 9);
    asWritten := a.Elements();
    var b := new Array<int>(2);
    b.PushBack(1);
    b.PushBack(2);
    b.UpdateAtCorrected(0, 9);
    corrected := b.Elements();
  }
}
