# Textbook containers and a stack calculator, in Dafny

This project models a C++ collection of classic containers and a small expression tool.
It proves what each operation does to the abstract sequence of items the container holds.

- **Doubly linked list** (`Doubly_Linked_List.h`, module `DoublyLinkedList`): push and pop at
  both ends, index-based insert and erase that walk from the nearer end, clear, reverse,
  deep copy and move, and the bidirectional iterator.
- **Singly linked list** (`Linked_List.h`, module `SinglyLinkedList`): the same operations over
  `head`/`tail`. Here the pops throw on an empty list, and there is a linear `find`.
- **Ring-buffer queue** (`Array_Queue.h`, module `ArrayQueue`): a fixed array whose `front` and
  `rear` advance modulo the capacity.
- **Linked queue** (`Linked_Queue.h`, module `LinkedQueue`) and **linked stack**
  (`Linked_Stack.h`, module `LinkedStack`).
- **Bounded array list** (`Linked_List_Array.h`, module `ArrayList`, class `Array`): insert and
  erase shift the buffer in place.
- **Calculator** (`Calc.h`, module `Calc`): the precedence test `piority`, the converter
  `infix_to_postfix` and the postfix evaluator `expression_evaluation`. Both of the last two run
  on the linked stack.

How the model is built:

- Every container is a Dafny `class` with the source's fields.
- Linked structures carry two ghost sequences. `Nodes` is the chain of nodes in order and
  `Contents` is the items they hold. A `Valid()` predicate ties the pointers and the count to
  both sequences.
- Each method states its new `Contents` in terms of the old one. The helpers `InsertAt`,
  `RemoveAt` and `Reversed` live in module `SeqOps` (`sequences.dfy`).
- Exceptions the source throws become an `Outcome` or `Result` value (module `Errors`). The
  `print` messages of refused operations are dropped, and the state is proved unchanged.
- The calculator's two loops are methods over the linked stack. Each is proved equal to a
  function that runs the rest of the input from a given state: `Convert` and `Postfix` for the
  converter, `RunWith` and `Evaluate` for the evaluator.
- The converter pops at most one stacked operator before pushing an incoming one, because the
  source uses `if`, not `while`. So `1-2*3+4` becomes `1 2 3 * 4 + -`. The model keeps this
  behaviour, and `Calc.SinglePopExample` shows it.

Where the code disagrees with its own comments or evident intent, the model follows the code.
It also adds a corrected version, listed under Findings.

## Model

| member | source | states |
|---|---|---|
| DoublyLinkedList.Node.constructor | Doubly_Linked_List.h:31 | A new node holds the given item, with null `next` and `prev`. |
| DoublyLinkedList.List.constructor | Doubly_Linked_List.h:49 | A new list is valid and empty, with both end pointers null. |
| DoublyLinkedList.List.Copy | Doubly_Linked_List.h:55-61 | From any well-formed chain, the copy constructor gives a valid list of new nodes with the same items in the same order. |
| DoublyLinkedList.List.Move | Doubly_Linked_List.h:67-72 | The move constructor takes over the other list's chain, items and end pointers, and leaves the other list valid and empty. It needs only a well-formed chain, so it also accepts a list whose `back` is wrong, and the new list is valid exactly when the old one was. |
| DoublyLinkedList.List.AssignCopy | Doubly_Linked_List.h:79-89 | From any well-formed chain, copy assignment leaves this list valid, holding the other's items in order in nodes that are all new, and the other list unchanged. Self-assignment keeps the nodes. |
| DoublyLinkedList.List.AssignMove | Doubly_Linked_List.h:96-107 | From any well-formed chain, move assignment leaves this list with the other's items, and valid when the other was. From a distinct source list it takes over the chain and both end pointers as they were, and leaves that list empty. A self-move keeps the nodes and both ends. |
| DoublyLinkedList.List.Size | Doubly_Linked_List.h:120-122 | `size()` is the number of items. |
| DoublyLinkedList.List.Empty | Doubly_Linked_List.h:128-130 | `empty()` holds iff there are no items, iff both end pointers are null. |
| DoublyLinkedList.List.PushBack | Doubly_Linked_List.h:136-146 | Appends the value as a new last node; on an empty list that node is both front and back. |
| DoublyLinkedList.List.PushFront | Doubly_Linked_List.h:164-175 | Prepends the value as a new first node; on an empty list that node is both front and back. |
| DoublyLinkedList.List.Locate | Doubly_Linked_List.h:191-202 | The walk from the nearer end reaches the node at `index`, in at most `length / 2` steps. |
| DoublyLinkedList.List.Insert | Doubly_Linked_List.h:177-212 | An index past the length throws out_of_range and changes nothing. Otherwise the value lands at position `index`, in one new node placed there in the chain. |
| DoublyLinkedList.List.SpliceBefore | Doubly_Linked_List.h:204-210 | Relinking a new node before the node at `index` inserts exactly one item there. |
| DoublyLinkedList.List.PopBack | Doubly_Linked_List.h:214-225 | On an empty list nothing happens. Otherwise the last item and node go. |
| DoublyLinkedList.List.PopFront | Doubly_Linked_List.h:227-238 | On an empty list nothing happens. Otherwise the first item and node go. |
| DoublyLinkedList.List.Erase | Doubly_Linked_List.h:241-273 | An index at or past the length throws out_of_range and changes nothing. Otherwise exactly the item and the node at `index` are removed. |
| DoublyLinkedList.List.Unlink | Doubly_Linked_List.h:269-272 | Relinking the neighbours of an inner node removes exactly that item and node. |
| DoublyLinkedList.List.Clear | Doubly_Linked_List.h:275-284 | Ends valid and empty, with null ends and length 0. |
| DoublyLinkedList.List.SwapAllLinks | Doubly_Linked_List.h:296-301 | On any well-formed chain, the swap loop exchanges `next` and `prev` on every node and leaves `temp_ptr` on the last node's predecessor. |
| DoublyLinkedList.List.ReversedChain | Doubly_Linked_List.h:296-312 | After the swap, the nodes read in reverse order form a well-formed chain of the reversed items, from the old back to the old front. |
| DoublyLinkedList.List.ReverseAsWritten | Doubly_Linked_List.h:287-313 | As written, on any well-formed chain: the links join the reversed nodes holding the reversed items. For two or more items `front` becomes the old `back` and `back` the old last node. From a valid list both are the old back node: walking forward still gives the reversed items, but the invariant is lost. |
| DoublyLinkedList.List.Reverse | Doubly_Linked_List.h:287-313 | With the stray `front = temp_ptr->prev` removed, reverse keeps the invariant, reverses both the items and the nodes, and exchanges `front` and `back`. |
| DoublyLinkedList.List.Begin | Doubly_Linked_List.h:386-388 | `begin()` is an iterator on `front`. |
| DoublyLinkedList.List.End | Doubly_Linked_List.h:394-397 | `end()` is the null iterator. |
| DoublyLinkedList.List.Traverse | Doubly_Linked_List.h:341-397 | Stepping an iterator with `++` from `begin()` until `operator==` says it is `end()` visits exactly the items, front to back. It reads only `front` and `next`, so it needs a well-formed chain and not a correct `back`. |
| DoublyLinkedList.Iterator.constructor | Doubly_Linked_List.h:339 | The iterator points at the given node. |
| DoublyLinkedList.Iterator.Deref | Doubly_Linked_List.h:341-349 | Dereferencing the null iterator is a runtime_error; otherwise it gives the node's item. |
| DoublyLinkedList.Iterator.Increment | Doubly_Linked_List.h:351-354 | Prefix `++` follows `next`; a null iterator stays null. |
| DoublyLinkedList.Iterator.PostIncrement | Doubly_Linked_List.h:356-360 | Postfix `++` moves the same way and returns the old position. |
| DoublyLinkedList.Iterator.Decrement | Doubly_Linked_List.h:362-365 | Prefix `--` follows `prev`; a null iterator stays null. |
| DoublyLinkedList.Iterator.PostDecrement | Doubly_Linked_List.h:367-371 | Postfix `--` moves the same way and returns the old position. |
| DoublyLinkedList.EqualsAtPositions | Doubly_Linked_List.h:373-379 | Iterators into one chain, at positions `i` and `j` (the length standing for `end()`), are equal exactly when `i == j`; `operator!=` is the negation. |
| DoublyLinkedList.BuildTestList | test.cpp:30-42 | Three push_backs, a push_front and `insert(2, 5)` give [0, 1, 5, 2, 3]. |
| DoublyLinkedList.ShrinkTestList | test.cpp:47-57 | pop_front, pop_back and `erase(1)` then leave [1, 2]. |
| DoublyLinkedList.TestScenario | test.cpp:62-68 | With the corrected reverse in place of the source's: reverse gives [2, 1], and a move hands both items over and leaves the source empty. |
| DoublyLinkedList.TestScenarioAsWritten | test.cpp:62-68 | With reverse as written, the test's checks still pass: the moved list reads 2, 1 from `begin()` to `end()`, it counts two items and the source is empty. Yet both ends of the moved list name the same node. |
| DoublyLinkedList.CopyIsIndependent | Doubly_Linked_List.h:79-89 | After copy assignment, pushing onto the copy leaves the source's items unchanged. |
| DoublyLinkedList.ReverseAsWrittenOnPair | Doubly_Linked_List.h:287-313 | As written, reversing [1, 2] leaves `front` and `back` on the same node, which holds 2. |
| DoublyLinkedList.ReverseTwiceAsWritten | Doubly_Linked_List.h:287-313 | As written, reversing [1, 2] twice leaves `front` on the node holding 2 with no `next`, and `back` on the node holding 1, while the count stays 2: walking from the front meets one item. |
| SinglyLinkedList.ReversedChain | Linked_List.h:303-310 | After every `next` has been turned around, the nodes read in reverse order form a well-formed chain of the reversed items. |
| SinglyLinkedList.Node.constructor | Linked_List.h:30 | A new node holds the given item, with a null `next`. |
| SinglyLinkedList.List.constructor | Linked_List.h:48 | A new list is valid and empty, with null head and tail. |
| SinglyLinkedList.List.Copy | Linked_List.h:54-60 | The copy constructor gives new nodes with the same items in order. |
| SinglyLinkedList.List.Move | Linked_List.h:66-71 | The move constructor takes over the chain and leaves the other list valid and empty. |
| SinglyLinkedList.List.AssignCopy | Linked_List.h:78-89 | Copy assignment leaves this list holding the other's items in order, in nodes that are all new, and the other unchanged. Self-assignment keeps the nodes. |
| SinglyLinkedList.List.AssignMove | Linked_List.h:95-106 | Move assignment leaves this list with the other's items. From a distinct source it takes over the chain itself and leaves the source empty. A self-move keeps the nodes. |
| SinglyLinkedList.List.Empty | Linked_List.h:119-121 | `empty()` holds iff there are no items, iff head and tail are null. |
| SinglyLinkedList.List.Size | Linked_List.h:127-129 | `size()` is the number of items. |
| SinglyLinkedList.List.PushBack | Linked_List.h:135-144 | Appends the value as a new tail; on an empty list head and tail are that node. |
| SinglyLinkedList.List.PushFront | Linked_List.h:165-174 | Prepends the value as a new head; on an empty list head and tail are that node. |
| SinglyLinkedList.List.Walk | Linked_List.h:208-211 | Following `next` from `head` the given number of times reaches the node at that position. |
| SinglyLinkedList.List.Insert | Linked_List.h:197-216 | An index past the length throws out_of_range and changes nothing. Otherwise the value lands at position `index`, in one new node placed there in the chain. |
| SinglyLinkedList.List.SpliceAfter | Linked_List.h:207-214 | Linking a new node after position `index - 1` inserts exactly one item at `index`. |
| SinglyLinkedList.List.PopFront | Linked_List.h:222-233 | An empty list throws runtime_error. Otherwise the first item goes, and removing the last node resets the tail. |
| SinglyLinkedList.List.PopBack | Linked_List.h:239-256 | An empty list throws runtime_error. Otherwise the last item goes, and its predecessor becomes the tail with a null `next`. |
| SinglyLinkedList.List.Erase | Linked_List.h:263-282 | An index at or past the length throws out_of_range and changes nothing. Otherwise exactly the item and the node at `index` are removed. |
| SinglyLinkedList.List.UnlinkAfter | Linked_List.h:273-280 | Bypassing the node after position `index - 1` removes exactly that item. |
| SinglyLinkedList.List.Clear | Linked_List.h:287-291 | Popping the front until empty ends with no items and null head and tail. |
| SinglyLinkedList.List.TurnLinks | Linked_List.h:299-309 | The prev/curr/next loop makes each node point at its predecessor and ends with `prev` on the old tail. |
| SinglyLinkedList.List.Reverse | Linked_List.h:296-311 | Reverse keeps the invariant and reverses the items; the old head becomes the tail and the old tail the head. |
| SinglyLinkedList.List.Find | Linked_List.h:318-327 | Returns the position of the first item equal to the value, or `size_t(-1)` when no item equals it. |
| SinglyLinkedList.BuildTestList | test.cpp:85-97 | The pushes and `insert(2, 5)` give [0, 1, 5, 2, 3]. |
| SinglyLinkedList.ShrinkTestList | test.cpp:102-112 | pop_front, pop_back and `erase(1)` leave [1, 2], and none of them throws. |
| SinglyLinkedList.CopyIsIndependent | Linked_List.h:78-89 | After copy assignment, pushing onto the copy leaves the source's items unchanged. |
| SinglyLinkedList.TestScenario | test.cpp:117-128 | After reverse, `find(2)` is 0 and an absent value is not found; a move hands over [2, 1] and leaves the source empty. |
| ArrayQueue.Wrap | Array_Queue.h:36 | The one-step correction equals `x % m` and lands in `0..m`. |
| ArrayQueue.Queue.constructor | Array_Queue.h:23 | `Queue(size)` is valid, empty and has `size` slots, with `front` at 0. |
| ArrayQueue.Queue.Default | Array_Queue.h:24 | `Queue()` is the same with 100 slots. |
| ArrayQueue.Queue.Empty | Array_Queue.h:26-28 | `empty()` holds iff there are no items. |
| ArrayQueue.Queue.IsFull | Array_Queue.h:30-32 | `isfull()` holds iff the item count equals the capacity. |
| ArrayQueue.Queue.Enqueue | Array_Queue.h:34-43 | Unless full, the item is appended at the rear and `front` stays. A full queue is unchanged. |
| ArrayQueue.Queue.Dequeue | Array_Queue.h:45-53 | Unless empty, the oldest item goes and `front` advances one slot modulo the capacity. An empty queue is unchanged. |
| ArrayQueue.Queue.DequeueInto | Array_Queue.h:55-64 | Yields the oldest item and drops it. An empty queue is unchanged and the caller's value is kept. |
| ArrayQueue.Queue.Advance | Array_Queue.h:58-59 | Advancing `front` and decrementing `length` drops exactly the oldest item and keeps the ring invariant. |
| ArrayQueue.Queue.Front | Array_Queue.h:66-69 | `get_front()` is the oldest item. |
| ArrayQueue.Queue.Rear | Array_Queue.h:71-74 | `get_rear()` is the newest item. |
| ArrayQueue.StartTestQueue | test.cpp:144-157 | Enqueueing 1, 2, 3 into five slots, a dequeue yields 1 and the front is then 2. |
| ArrayQueue.TestScenario | test.cpp:161-165 | Three more enqueues fill the queue and wrap `rear` to slot 0; a further enqueue is refused, so the newest item stays 6. |
| ArrayQueue.ZeroCapacity | Array_Queue.h:34-64 | A queue with no slots is both empty and full; enqueue and dequeue refuse, so no modulo by zero happens. |
| LinkedQueue.Queue.constructor | Linked_Queue.h:26 | A new queue is valid and empty, with null ends. |
| LinkedQueue.Queue.Empty | Linked_Queue.h:28-30 | `empty()` tests the count. Under the intended invariant it holds iff there are no items. |
| LinkedQueue.Queue.Enqueue | Linked_Queue.h:32-48 | The count grows by one. On an intact chain the item is appended at the rear; after `dequeue()` has emptied the chain, the new node is unreachable from `front`. |
| LinkedQueue.Queue.Dequeue | Linked_Queue.h:50-57 | As written: the oldest item leaves the chain but the count stays, so a non-empty valid queue stops being valid. |
| LinkedQueue.Queue.DequeueCorrected | Linked_Queue.h:50-57 | With the missing decrement, dequeue drops the oldest item and keeps the queue valid. |
| LinkedQueue.Queue.DequeueInto | Linked_Queue.h:59-71 | Yields the oldest item, removes it and decrements the count. An empty queue is unchanged. |
| LinkedQueue.Queue.Clear | Linked_Queue.h:73-79 | Ends valid and empty with null `front` and `rear`, from any reachable state. |
| LinkedQueue.Queue.GetFront | Linked_Queue.h:81-84 | `get_front()` is the oldest reachable item. |
| LinkedQueue.Queue.GetRear | Linked_Queue.h:86-89 | `get_rear()` is the newest item of an intact chain. |
| LinkedQueue.Queue.GetLength | Linked_Queue.h:91-93 | The count is at least the number of reachable items, and equals it under the intended invariant. |
| LinkedQueue.TestScenario | test.cpp:179-199 | Enqueue 1, 2, 3; a dequeue yields 1, the front is then 2 and the rear 3; clear empties the queue. |
| LinkedQueue.DequeueKeepsCount | Linked_Queue.h:50-57 | As written, after one enqueue and a `dequeue()` the queue is not empty; the next enqueue makes the count 2 with nothing reachable from `front`. |
| LinkedQueue.DequeueCorrectedKeepsCount | Linked_Queue.h:50-57 | With the corrected dequeue, the same steps leave one reachable item, 2. |
| LinkedStack.Stack.constructor | Linked_Stack.h:23 | A new stack is valid and empty. |
| LinkedStack.Stack.Empty | Linked_Stack.h:39-41 | `empty()` tests `top`, and holds iff there are no items. |
| LinkedStack.Stack.Push | Linked_Stack.h:25-37 | The item becomes the new top in a new node. |
| LinkedStack.Stack.Pop | Linked_Stack.h:43-54 | Unless empty, the top item goes. An empty stack is unchanged. |
| LinkedStack.Stack.PopInto | Linked_Stack.h:56-68 | Yields the top item and removes it. An empty stack is unchanged and the caller's value is kept. |
| LinkedStack.Stack.Unlink | Linked_Stack.h:45-49 | Moving `top` down and cutting the old top's link removes exactly the top item. |
| LinkedStack.Stack.GetTop | Linked_Stack.h:70-78 | `get_top()` is the top item, or the item type's `0` on an empty stack. |
| LinkedStack.TestScenario | test.cpp:203-234 | Push 1, 2, 3: a pop yields 3 and the top is then 2. Popping the rest empties the stack, and the top of the empty stack is 0. |
| ArrayList.Array.constructor | Linked_List_Array.h:17 | A new list is valid, empty and has `size` slots. |
| ArrayList.Array.Empty | Linked_List_Array.h:19-21 | `empty()` holds iff there are no items. |
| ArrayList.Array.Full | Linked_List_Array.h:23-25 | `full()` holds iff the item count is the capacity. |
| ArrayList.Array.GetLength | Linked_List_Array.h:27-29 | `get_length()` is the item count, between 0 and the capacity. |
| ArrayList.Array.PushBack | Linked_List_Array.h:39-47 | Unless full, the value is appended. A full list is unchanged. |
| ArrayList.Array.PushFront | Linked_List_Array.h:49-60 | Unless full, the value is prepended. A full list is unchanged. |
| ArrayList.Array.Insert | Linked_List_Array.h:62-76 | With room and `pos <= length`, the value lands at `pos`. Otherwise nothing changes. |
| ArrayList.Array.ShiftRight | Linked_List_Array.h:64-66 | The shifting loop moves the slots from `pos` on one place right and keeps those before `pos`. |
| ArrayList.Array.Erase | Linked_List_Array.h:78-91 | As written: `pos < length` removes that item, but `pos == length` drops the last item. |
| ArrayList.Array.EraseCorrected | Linked_List_Array.h:78-91 | With the guard `pos < length`, only an existing item is removed, and any other position changes nothing. |
| ArrayList.Array.ShiftLeft | Linked_List_Array.h:80-82 | The shifting loop moves the slots after `pos` one place left and keeps those before `pos`. |
| ArrayList.Array.At | Linked_List_Array.h:93-98 | `at(pos)` is the item at `pos`. |
| ArrayList.Array.UpdateAt | Linked_List_Array.h:100-107 | As written: an existing item is replaced only when the list is not full; a full list refuses every update. |
| ArrayList.Array.UpdateAtCorrected | Linked_List_Array.h:100-107 | With the guard `pos < length`, every existing item can be replaced, and nothing else changes. |
| ArrayList.Array.Clear | Linked_List_Array.h:109-111 | The items are gone and the buffer is untouched. |
| ArrayList.OneTwoThree | test.cpp:276-286 | A new list of `size` slots (five in the test), after push_back of 1, 2 and 3, is valid with that capacity and holds [1, 2, 3]. |
| ArrayList.TestScenario | test.cpp:273-309 | The pushes and inserts fill five slots; after an erase and a push_back the items are [0, 5, 2, 3, 6] and the list is full. |
| ArrayList.EraseAtLength | Linked_List_Array.h:78-84 | As written, `erase(3)` on [1, 2, 3] gives [1, 2]; the corrected erase keeps [1, 2, 3]. |
| ArrayList.UpdateOnFull | Linked_List_Array.h:100-107 | As written, `update_at(0, 9)` on a full [1, 2] changes nothing; the corrected one gives [9, 2]. |
| Calc.Priority | Calc.h:11-17 | Between operators: true iff the stacked one binds at least as tightly. A stacked '(' is always true. Against an incoming '(' anything else is false, and so is any stacked non-operator. A stacked operator is true against any other character, so it is emitted before a letter is pushed. |
| Calc.DigitRun | Calc.h:27-30 | The digit-gathering loop stops at the end of the maximal run of digits. |
| Calc.ReadNumber | Calc.h:25-31 | The digit branch reads exactly that run and appends a space and the run to the result. |
| Calc.UnwindLoop | Calc.h:35-41 | On ')', operators are emitted and popped down to the nearest '(', and that '(' is popped. |
| Calc.StepLoop | Calc.h:43-49 | Any other character emits at most one stacked operator that takes priority, then is pushed unless it is white space. |
| Calc.DrainLoop | Calc.h:54-57 | The closing loop empties the stack onto the result, top first. |
| Calc.ConvertOne | Calc.h:24-50 | One pass of the main loop moves forward and leaves the rest of the conversion unchanged: what `Convert` makes of the remaining input is the same before and after. |
| Calc.ConvertSymbol | Calc.h:35-49 | After any digits, the ')' branch or the push branch consumes one character and keeps the rest of the conversion unchanged. |
| Calc.InfixToPostfix | Calc.h:19-59 | Whenever the source returns normally, the method returns exactly `Postfix(str)`: the emitted text without its leading space, then the drained stack. |
| Calc.EmitOperator | Calc.h:37-44 | Emitting a space and an operator adds no digit and keeps the text space-separated. |
| Calc.EmitNumber | Calc.h:31 | Emitting a space and a number adds exactly the number's digits. |
| Calc.DrainPlain | Calc.h:54-57 | The drained stack holds no digit, and no parenthesis when no '(' is left. |
| Calc.UnwindKeeps | Calc.h:35-41 | The ')' branch keeps the stack free of digits, spaces and ')', and emits no digit. With a '(' on the stack it succeeds and consumes one '('. |
| Calc.StepKeeps | Calc.h:43-49 | Any other character keeps the stack clean and emits no digit. |
| Calc.ConvertKeeps | Calc.h:24-50 | The main loop emits exactly the digits it reads, in order, and never stacks a digit, a space or a ')'. |
| Calc.ConvertMatched | Calc.h:24-50 | When every ')' is matched, the loop never gets stuck on a ')'. The unclosed '(' are left on the stack, and no parenthesis is emitted. |
| Calc.MatchedConverts | Calc.h:19-59 | Input with matched parentheses and at least one digit converts normally, and the result holds exactly the input's digits in order. |
| Calc.BalancedHasNoParens | Calc.h:19-59 | On balanced input the postfix text holds no parenthesis. |
| Calc.PrecedenceExample | Calc.h:19-59 | `1+2*3` converts to `1 2 3 * +`. |
| Calc.ParenthesesExample | Calc.h:19-59 | `(1+2)*3` converts to `1 2 + 3 *`. |
| Calc.SinglePopExample | Calc.h:43-57 | `1-2*3+4` converts to `1 2 3 * 4 + -`: on '+' only '*' is popped, and '-' stays below '+'. |
| Calc.ConversionExamples | Calc.h:19-59 | The converter method returns those three texts. |
| Calc.TruncDiv | Calc.h:96-101 | C++ integer division: the remainder is smaller than the divisor in magnitude and has the dividend's sign. |
| Calc.Apply | Calc.h:75-101 | The four operators; only a division by zero has no value. |
| Calc.ExpressionEvaluation | Calc.h:61-106 | Whenever the source's behaviour is defined, the method returns exactly `Evaluate(str)`. |
| Calc.PushDigits | Calc.h:65-69 | Each digit of a run is pushed as its own operand, and the loop stops at the first non-digit; the rest of the evaluation is unchanged. |
| Calc.EvaluateOne | Calc.h:64-102 | One pass of the evaluator's loop moves forward and leaves the rest of the evaluation unchanged. |
| Calc.EvaluateSymbol | Calc.h:72-102 | An operator is applied and the character after it skipped; any other character is passed over. Either way the rest of the evaluation is unchanged. |
| Calc.ApplyTop | Calc.h:75-101 | One operator case pops `num1` then `num2`, pushes `num1 op num2` and skips the next character. |
| Calc.OperatorRendered | Calc.h:72-101 | A space and an operator combine the two top operands in the order used, and the character after the operator is skipped. |
| Calc.RunRendered | Calc.h:64-103 | Evaluating the postfix text of an expression pushes its value: its usual value in the intended order, or its mirror's value as written. |
| Calc.CorrectedEvaluates | Calc.h:72-101 | With `second op top`, the evaluator computes the usual value of every single-digit expression. |
| Calc.AsWrittenMirrors | Calc.h:72-101 | As written, the evaluator computes the value of the expression with every operator's operands swapped. |
| Calc.MirrorKeepsCommutative | Calc.h:75-94 | Swapping operands does not change a sum or product of digits. |
| Calc.CommutativeEvaluates | Calc.h:75-94 | On sums and products of digits, the evaluator as written is right. |
| Calc.SubtractionSwapped | Calc.h:82-87 | As written, `1 2 -` evaluates to 1; the intended value is -1. |
| Calc.DigitsAreOperands | Calc.h:64-101 | `12 3 +` evaluates to 5: each digit of `12` is an operand, and the sum is 3 + 2. |
| Calc.EvaluationExamples | Calc.h:64-105 | The method gives 1 on `1 2 -`, and 5 on `12 3 +`, where `12` is two operands and the sum is 3 + 2. |

## Findings

| source | as written | input that shows it | evidently intended | confidence | as-written member | corrected member |
|---|---|---|---|---|---|---|
| Doubly_Linked_List.h:305-312 | `front = temp_ptr->prev` moves `front` to the old back before the closing swap, so `front` and `back` both end on the old back | reverse of [1, 2]: `front` and `back` both name the node holding 2 | swap `front` and `back` only, as the comments say | high, not executed | DoublyLinkedList.ReverseAsWrittenOnPair | DoublyLinkedList.List.Reverse |
| Linked_Queue.h:50-53 | `dequeue()` advances `front` without `--length` | enqueue 1, `dequeue()`: `empty()` is false; enqueue 2: the count is 2 and `front` is null | decrement `length` as `dequeue(t&)` does | high, not executed | LinkedQueue.DequeueKeepsCount | LinkedQueue.Queue.DequeueCorrected |
| Linked_List_Array.h:79 | `erase` admits `pos == length` and still decrements `length` | `erase(3)` on [1, 2, 3] gives [1, 2] | refuse `pos >= length` | medium, not executed | ArrayList.EraseAtLength | ArrayList.Array.EraseCorrected |
| Linked_List_Array.h:101 | `update_at` refuses whenever the list is full, and accepts `pos == length` | `update_at(0, 9)` on a full [1, 2] changes nothing | accept exactly `pos < length` | medium, not executed | ArrayList.UpdateOnFull | ArrayList.Array.UpdateAtCorrected |
| Calc.h:75-101 | `num1` is the top operand and `num2` the one below, and the push is `num1 op num2` | `1 2 -` evaluates to 1 | `num2 op num1`, giving -1 | high, not executed | Calc.SubtractionSwapped | Calc.CorrectedEvaluates |

## Left out

- Console output: every `print()` and the messages of refused operations. The state is proved unchanged in those cases.
- Memory management: `delete`, destructors, leaks (the `temp = temp->next = nullptr; delete temp` in Linked_Stack.h and the deletes of null in the `print()` methods) and allocation failure (the `nullptr` branch of `push` at Linked_Stack.h:34-36). Dafny allocation does not fail.
- The rvalue (`T&&`) overloads of push_back and push_front. They do the same as the `const T&` ones that are modelled.
- The singly linked list's iterator (Linked_List.h:345-402). It is the forward half of the doubly linked list's iterator, which is modelled.
- operator-> of the iterator: it is modelled together with operator* as `Deref`.
- Machine integers: `long` overflow in the evaluator, and the `int` width of the ring queue's and array list's counters. Capacities are bounded by `0x7FFF_FFFF` instead.
- Linked_List_Array.h:17 allocates a single element with `new t` and stores it in an `int*`. The model gives the buffer `max_size` slots of the item type.
- ArrayList.Array.ShiftLeft: on a full list the source's last step reads one slot past the buffer. The model leaves that slot's value in place; it lies outside the items once `length` drops.
- ArrayList.Array.At: requires `pos < length`, because any other position falls off the end of a non-void function.
- LinkedQueue.Queue.Dequeue: requires a reachable node whenever the count is positive. After an earlier `dequeue()` has emptied the chain, the source dereferences a null `front`, which is undefined.
- LinkedQueue.Queue.DequeueInto: requires a reachable node whenever the count is positive, as `Dequeue` does, for the same reason.
- Use after free in the linked queue: on [1, 2], `dequeue()` then `dequeue(t&)` deletes the node that `rear` still names, and the next `enqueue` writes `rear->next`. The model does not model `delete`, so it gives that `enqueue` the defined outcome of writing to the detached node.
- LinkedQueue.Queue.GetRear: states the result only for an intact chain. After `dequeue()` the rear node is detached and its item is not part of `Contents`.
- LinkedQueue.Queue.GetFront: requires a reachable node as well as a positive count, for the same reason.
- Calc.InfixToPostfix: requires `Postfix(str)` to be defined. An unmatched ')' loops forever in the source (`get_top` keeps answering 0), and erasing the first character of an empty result is undefined.
- Calc.ExpressionEvaluation: requires `Evaluate(str)` to be defined. An operator with fewer than two operands reads uninitialised `num1`/`num2`, and a division by zero is undefined.
- Multi-digit numbers in the evaluator: each digit is its own operand, which the model keeps and `Calc.EvaluationExamples` shows; no corrected multi-digit evaluator is modelled.
- The converter's single pop per incoming operator is modelled as written, without a corrected converter; `Calc.SinglePopExample` shows its effect.
- DoublyLinkedList.TestScenario: runs the corrected reverse where test.cpp:62 runs the source's. The source's reverse in the same test is `DoublyLinkedList.TestScenarioAsWritten`. It states what the test checks, the traversal from `begin()` to `end()`, the size and the emptied source, and also that both ends of the moved list name the same node.
- The order of `tail = head` in the singly linked reverse: the model runs the link-turning loop first and then sets `tail`. The loop never reads `tail`, so the outcome is the same.
- `isdigit` and `isspace` are modelled on ASCII characters.
