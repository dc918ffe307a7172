/**
 * The expression tools of Calc.h: the operator-precedence test `piority`, the
 * infix-to-postfix converter `infix_to_postfix` and the postfix evaluator
 * `expression_evaluation`, both of which keep their operators or operands on the
 * linked stack of Linked_Stack.h.
 *
 * Each converter and evaluator is a method whose loop mirrors the source, proved
 * against a function that processes the rest of the input from a given state.
 */
module Calc {
  import LinkedStack

  datatype Option<T> = None | Some(value: T)

  /** `isdigit` on ASCII. */
  predicate IsDigit(c: char) {
    '0' <= c <= '9'
  }

  /** `isspace` on ASCII: space, and tab through carriage return. */
  predicate IsSpace(c: char) {
    c == ' ' || '\t' <= c <= '\r'
  }

  predicate IsOperator(c: char) {
    c == '+' || c == '-' || c == '*' || c == '/'
  }

  /** Binding strength of an arithmetic operator. */
  function Rank(c: char): nat {
    if c == '*' || c == '/' then 2 else 1
  }

  /**
   * `piority(c1, c2)`: whether the stacked `c1` is emitted before the incoming `c2`.
   * Between arithmetic operators it is "binds at least as tightly"; a stacked '('
   * always answers yes, and an incoming '(' answers no to every other character.
   */
  function Priority(c1: char, c2: char): (r: bool)
    ensures IsOperator(c1) && IsOperator(c2) ==> (r <==> Rank(c1) >= Rank(c2))
    ensures c1 == '(' ==> r
    ensures c1 != '(' && c2 == '(' ==> !r
    ensures !IsOperator(c1) && c1 != '(' ==> !r
    ensures IsOperator(c1) && !IsOperator(c2) && c2 != '(' ==> r
  {
    c1 == '('
    || ((c1 == '*' || c1 == '/') && c2 != '(')
    || ((c1 == '+' || c1 == '-') && (c2 != '(' && c2 != '/' && c2 != '*'))
  }

  // ---------------------------------------------------------------------------
  // infix_to_postfix
  // ---------------------------------------------------------------------------

  /** The converter's state: the text emitted so far and the operator stack, top first. */
  datatype Conv = Conv(out: string, ops: seq<char>)

  /** The length of the run of digits that `s` starts with. */
  function DigitRun(s: string): (k: nat)
    ensures k <= |s|
    ensures forall j :: 0 <= j < k ==> IsDigit(s[j])
    ensures k < |s| ==> !IsDigit(s[k])
  {
    if s != [] && IsDigit(s[0]) then 1 + DigitRun(s[1..]) else 0
  }

  /**
   * On ')': emit and pop operators until '(' is on top, then pop the '('.  With no '('
   * on the stack the source never stops (`get_top` keeps answering 0): None.
   */
  function Unwind(c: Conv): Option<Conv>
    decreases |c.ops|
  {
    if c.ops == [] then None
    else if c.ops[0] == '(' then Some(Conv(c.out, c.ops[1..]))
    else Unwind(Conv(c.out + [' ', c.ops[0]], c.ops[1..]))
  }

  /**
   * Any other non-digit `ch`: at most one stacked operator that takes priority is
   * emitted, then `ch` is pushed; white space is neither compared nor pushed.
   */
  function Step(ch: char, c: Conv): Conv {
    var popped :=
      if c.ops != [] && Priority(c.ops[0], ch) && !IsSpace(ch) && c.ops[0] != '('
      then Conv(c.out + [' ', c.ops[0]], c.ops[1..])
      else c;
    if IsSpace(ch) then popped else Conv(popped.out, [ch] + popped.ops)
  }

  /** The main loop of `infix_to_postfix` run over the rest `s` of the input from state `c`. */
  function Convert(s: string, c: Conv): Option<Conv>
    decreases |s|
  {
    if s == [] then Some(c)
    else if IsDigit(s[0]) then
      var k := DigitRun(s);
      Convert(s[k..], Conv(c.out + [' '] + s[..k], c.ops))
    else if s[0] == ')' then
      match Unwind(c)
      case None => None
      case Some(c') => Convert(s[1..], c')
    else Convert(s[1..], Step(s[0], c))
  }

  /** The closing loop: what is left on the stack, top first, each after a space. */
  function Drain(ops: seq<char>): string {
    if ops == [] then [] else [' ', ops[0]] + Drain(ops[1..])
  }

  /**
   * What `infix_to_postfix(s)` returns: the emitted text without its leading space,
   * then the drained stack.  None when the source does not return normally: an
   * unmatched ')' loops forever, and erasing the first character of an empty result
   * is undefined.
   */
  function Postfix(s: string): Option<string> {
    match Convert(s, Conv([], []))
    case None => None
    case Some(c) => if c.out == [] then None else Some(c.out[1..] + Drain(c.ops))
  }

  /** `Postfix` once the main loop's final state is known. */
  lemma PostfixOf(s: string, c: Conv)
    requires Convert(s, Conv([], [])) == Some(c) && c.out != []
    ensures Postfix(s) == Some(c.out[1..] + Drain(c.ops))
  {
  }

  /** A digit run is determined by where the digits stop. */
  lemma DigitRunIs(s: string, k: nat)
    requires k <= |s| && forall j :: 0 <= j < k ==> IsDigit(s[j])
    requires k < |s| ==> !IsDigit(s[k])
    ensures DigitRun(s) == k
  {
  }

  /**
   * The ')' branch of `infix_to_postfix`: `while (ope.get_top() != '(')` emits and pops,
   * then the '(' itself is popped.
   */
  method UnwindLoop(ope: LinkedStack.Stack<char>, out: string) returns (result: string)
    requires ope.Valid() && Unwind(Conv(out, ope.Contents)).Some?
    modifies ope, ope.Nodes
    ensures ope.Valid() && Unwind(Conv(out, old(ope.Contents))) == Some(Conv(result, ope.Contents))
    ensures forall k :: 0 <= k < |ope.Nodes| ==> ope.Nodes[k] in old(ope.Nodes)
  {
    result := out;
    while ope.GetTop() != '('
      invariant ope.Valid()
      invariant forall k :: 0 <= k < |ope.Nodes| ==> ope.Nodes[k] in old(ope.Nodes)
      invariant Unwind(Conv(result, ope.Contents)) == Unwind(Conv(out, old(ope.Contents)))
      invariant Unwind(Conv(result, ope.Contents)).Some?
      decreases |ope.Contents|
    {
      result := result + [' ', ope.GetTop()];
      ope.Pop();
    }
    ope.Pop();
  }

  /**
   * The digit branch of `infix_to_postfix`: the run of digits from `i` is gathered into
   * `temp` and appended after a space.
   */
  method ReadNumber(str: string, i: nat, out: string, ghost ops: seq<char>) returns (next: nat, result: string)
    requires i < |str| && IsDigit(str[i])
    ensures i < next <= |str|
    ensures next == i + DigitRun(str[i..])
    ensures result == out + [' '] + str[i..next]
    ensures next < |str| ==> !IsDigit(str[next])
    ensures Convert(str[next..], Conv(result, ops)) == Convert(str[i..], Conv(out, ops))
  {
    next := i;
    var temp := [];
    while next < |str| && IsDigit(str[next])
      invariant i <= next <= |str|
      invariant temp == str[i..next]
      invariant forall j :: i <= j < next ==> IsDigit(str[j])
      decreases |str| - next
    {
      temp := temp + [str[next]];
      next := next + 1;
    }
    DigitRunIs(str[i..], next - i);
    result := out + [' '] + temp;
    ConvertDigitsAt(str, i, next, Conv(out, ops));
  }

  /** Any other character: at most one operator is emitted, then the character is pushed. */
  method StepLoop(ope: LinkedStack.Stack<char>, ch: char, out: string) returns (result: string)
    requires ope.Valid()
    modifies ope, ope.Nodes
    ensures ope.Valid() && Step(ch, Conv(out, old(ope.Contents))) == Conv(result, ope.Contents)
    ensures forall k :: 0 <= k < |ope.Nodes| ==> ope.Nodes[k] in old(ope.Nodes) || fresh(ope.Nodes[k])
  {
    result := out;
    if !ope.Empty() && Priority(ope.GetTop(), ch) && !IsSpace(ch) && ope.GetTop() != '(' {
      result := result + [' ', ope.GetTop()];
      ope.Pop();
    }
    if !IsSpace(ch) {
      ope.Push(ch);
    }
  }

  /** The closing loop of `infix_to_postfix`: the stack is emptied onto the text. */
  method DrainLoop(ope: LinkedStack.Stack<char>, out: string) returns (result: string)
    requires ope.Valid()
    modifies ope, ope.Nodes
    ensures ope.Valid() && ope.Contents == [] && result == out + Drain(old(ope.Contents))
  {
    result := out;
    while !ope.Empty()
      invariant ope.Valid()
      invariant forall k :: 0 <= k < |ope.Nodes| ==> ope.Nodes[k] in old(ope.Nodes)
      invariant result + Drain(ope.Contents) == out + Drain(old(ope.Contents))
      decreases |ope.Contents|
    {
      result := result + [' ', ope.GetTop()];
      ope.Pop();
    }
  }

  /** `infix_to_postfix`, with its loop over the input and its operator stack. */
  method InfixToPostfix(str: string) returns (result: string)
    requires Postfix(str).Some?
    ensures result == Postfix(str).value
  {
    var ope := new LinkedStack.Stack<char>(0 as char);
    ghost var target := Convert(str, Conv([], []));
    result := [];
    var i := 0;
    while i < |str|
      invariant 0 <= i <= |str|
      invariant ope.Valid() && fresh(ope)
      invariant forall k :: 0 <= k < |ope.Nodes| ==> fresh(ope.Nodes[k])
      invariant Convert(str[i..], Conv(result, ope.Contents)) == target
      decreases |str| - i
    {
      i, result := ConvertOne(ope, str, i, result);
    }
    result := result[1..];
    result := DrainLoop(ope, result);
  }

  /**
   * One pass of the main loop from index `i`: a digit run with the character after it,
   * a ')', or any other character.  A digit run that reaches the end leaves the loop,
   * as the source's `break` does.
   */
  method ConvertOne(ope: LinkedStack.Stack<char>, str: string, i: nat, out: string)
      returns (next: nat, result: string)
    requires i < |str| && ope.Valid()
    requires Convert(str[i..], Conv(out, ope.Contents)).Some?
    modifies ope, ope.Nodes
    ensures i < next <= |str| && ope.Valid()
    ensures Convert(str[next..], Conv(result, ope.Contents)) == Convert(str[i..], Conv(out, old(ope.Contents)))
    ensures forall k :: 0 <= k < |ope.Nodes| ==> ope.Nodes[k] in old(ope.Nodes) || fresh(ope.Nodes[k])
  {
    next, result := i, out;
    if IsDigit(str[next]) {
      next, result := ReadNumber(str, i, result, ope.Contents);
      if next >= |str| {
        return;
      }
    }
    result := ConvertSymbol(ope, str, next, result);
    next := next + 1;
  }

  /** The part of a pass after any digits: the ')' branch, or the push of any other character. */
  method ConvertSymbol(ope: LinkedStack.Stack<char>, str: string, i: nat, out: string)
      returns (result: string)
    requires i < |str| && !IsDigit(str[i]) && ope.Valid()
    requires Convert(str[i..], Conv(out, ope.Contents)).Some?
    modifies ope, ope.Nodes
    ensures ope.Valid()
    ensures Convert(str[i + 1..], Conv(result, ope.Contents)) == Convert(str[i..], Conv(out, old(ope.Contents)))
    ensures forall k :: 0 <= k < |ope.Nodes| ==> ope.Nodes[k] in old(ope.Nodes) || fresh(ope.Nodes[k])
  {
    ConvertSymbolAt(str, i, Conv(out, ope.Contents));
    if str[i] == ')' {
      result := UnwindLoop(ope, out);
    } else {
      result := StepLoop(ope, str[i], out);
    }
  }

  /** The main loop's step over a run of digits, at index `i` of `str`. */
  lemma ConvertDigitsAt(str: string, i: nat, next: nat, c: Conv)
    requires i < |str| && IsDigit(str[i]) && next == i + DigitRun(str[i..])
    ensures next <= |str|
    ensures Convert(str[i..], c) == Convert(str[next..], Conv(c.out + [' '] + str[i..next], c.ops))
  {
    assert str[i..][next - i..] == str[next..] && str[i..][..next - i] == str[i..next];
  }

  /** The main loop's step over one other character, at index `i` of `str`. */
  lemma ConvertSymbolAt(str: string, i: nat, c: Conv)
    requires i < |str| && !IsDigit(str[i])
    ensures str[i] == ')' && Unwind(c).None? ==> Convert(str[i..], c).None?
    ensures str[i] == ')' && Unwind(c).Some? ==> Convert(str[i..], c) == Convert(str[i + 1..], Unwind(c).value)
    ensures str[i] != ')' ==> Convert(str[i..], c) == Convert(str[i + 1..], Step(str[i], c))
  {
    assert str[i..][0] == str[i] && str[i..][1..] == str[i + 1..];
  }

  // ---------------------------------------------------------------------------
  // What the converter keeps
  // ---------------------------------------------------------------------------

  /** The digits of `s`, in order. */
  function Digits(s: string): string {
    if s == [] then [] else (if IsDigit(s[0]) then [s[0]] else []) + Digits(s[1..])
  }

  /** The operator stack holds no digit, no white space and no ')'. */
  ghost predicate Clean(ops: seq<char>) {
    forall j :: 0 <= j < |ops| ==> !IsDigit(ops[j]) && !IsSpace(ops[j]) && ops[j] != ')'
  }

  /** Every piece of emitted text starts with its separating space. */
  ghost predicate Spaced(out: string) {
    out == [] || out[0] == ' '
  }

  ghost predicate NoParens(s: string) {
    forall j :: 0 <= j < |s| ==> s[j] != '(' && s[j] != ')'
  }

  /** The number of '(' on the operator stack. */
  function Opens(ops: seq<char>): nat {
    if ops == [] then 0 else (if ops[0] == '(' then 1 else 0) + Opens(ops[1..])
  }

  /**
   * The nesting depth after reading `s` from depth `d`, or -1 as soon as a ')' has no
   * '(' to match.
   */
  function FinalDepth(s: string, d: nat): int
    decreases |s|
  {
    if s == [] then d
    else if s[0] == '(' then FinalDepth(s[1..], d + 1)
    else if s[0] == ')' then (if d == 0 then -1 else FinalDepth(s[1..], d - 1))
    else FinalDepth(s[1..], d)
  }

  /** Every ')' closes an earlier '('. */
  ghost predicate Matched(s: string) {
    FinalDepth(s, 0) >= 0
  }

  /** Matched, and every '(' is closed. */
  ghost predicate Balanced(s: string) {
    FinalDepth(s, 0) == 0
  }

  lemma {:induction false} DigitsAppend(a: string, b: string)
    ensures Digits(a + b) == Digits(a) + Digits(b)
    decreases |a|
  {
    if a != [] {
      DigitsAppend(a[1..], b);
      assert (a + b)[0] == a[0] && (a + b)[1..] == a[1..] + b;
    } else {
      assert a + b == b;
    }
  }

  lemma {:induction false} DigitsOfDigits(s: string)
    requires forall j :: 0 <= j < |s| ==> IsDigit(s[j])
    ensures Digits(s) == s
    decreases |s|
  {
    if s != [] {
      DigitsOfDigits(s[1..]);
    }
  }

  /** Emitting a space and a stacked operator adds no digit and keeps the text spaced. */
  lemma EmitOperator(out: string, op: char)
    requires !IsDigit(op)
    ensures Digits(out + [' ', op]) == Digits(out)
    ensures Spaced(out) ==> Spaced(out + [' ', op])
  {
    DigitsAppend(out, [' ', op]);
    assert [' ', op][1..] == [op];
    assert Digits([op]) == [];
  }

  /** Emitting a space and a number adds exactly the number's digits. */
  lemma EmitNumber(out: string, num: string)
    requires forall j :: 0 <= j < |num| ==> IsDigit(num[j])
    ensures Digits(out + [' '] + num) == Digits(out) + num
    ensures Spaced(out) ==> Spaced(out + [' '] + num)
  {
    assert (out + [' '] + num)[0] == if out == [] then ' ' else out[0];
    DigitsOfDigits(num);
    assert Digits([' ']) == [];
    DigitsAppend(out, [' ']);
    DigitsAppend(out + [' '], num);
  }

  /** The digits of an input are its leading run of digits followed by the digits of the rest. */
  lemma {:induction false} RunDigits(s: string)
    ensures Digits(s) == s[..DigitRun(s)] + Digits(s[DigitRun(s)..])
    decreases |s|
  {
    if s != [] && IsDigit(s[0]) {
      var t := s[1..];
      var k := DigitRun(t);
      RunDigits(t);
      assert s[..k + 1] == [s[0]] + t[..k] && s[k + 1..] == t[k..];
    }
  }

  lemma {:induction false} DrainPlain(ops: seq<char>)
    requires Clean(ops)
    ensures Digits(Drain(ops)) == []
    ensures Opens(ops) == 0 ==> NoParens(Drain(ops))
    decreases |ops|
  {
    if ops != [] {
      DrainPlain(ops[1..]);
      DigitsAppend([' ', ops[0]], Drain(ops[1..]));
      assert [' ', ops[0]][1..] == [ops[0]];
    }
  }

  /** The ')' branch keeps the stack clean and the text spaced, and emits no digit. */
  lemma {:induction false} UnwindKeeps(c: Conv)
    requires Clean(c.ops) && Spaced(c.out)
    ensures Unwind(c).Some? ==>
      Clean(Unwind(c).value.ops) && Spaced(Unwind(c).value.out)
      && Digits(Unwind(c).value.out) == Digits(c.out)
    ensures Opens(c.ops) > 0 ==>
      Unwind(c).Some? && Opens(Unwind(c).value.ops) == Opens(c.ops) - 1
      && (NoParens(c.out) ==> NoParens(Unwind(c).value.out))
    decreases |c.ops|
  {
    if c.ops != [] && c.ops[0] != '(' {
      EmitOperator(c.out, c.ops[0]);
      UnwindKeeps(Conv(c.out + [' ', c.ops[0]], c.ops[1..]));
    }
  }

  /** Any other character keeps the stack clean and the text spaced, and emits no digit. */
  lemma StepKeeps(ch: char, c: Conv)
    requires !IsDigit(ch) && ch != ')'
    requires Clean(c.ops) && Spaced(c.out)
    ensures Clean(Step(ch, c).ops) && Spaced(Step(ch, c).out)
    ensures Digits(Step(ch, c).out) == Digits(c.out)
    ensures Opens(Step(ch, c).ops) == Opens(c.ops) + (if ch == '(' then 1 else 0)
    ensures NoParens(c.out) ==> NoParens(Step(ch, c).out)
  {
    if c.ops != [] && Priority(c.ops[0], ch) && !IsSpace(ch) && c.ops[0] != '(' {
      EmitOperator(c.out, c.ops[0]);
    }
  }

  /** Emitting the leading run of digits of `s` after a space. */
  lemma EmitRun(out: string, s: string)
    ensures Digits(out + [' '] + s[..DigitRun(s)]) == Digits(out) + s[..DigitRun(s)]
    ensures Spaced(out) ==> Spaced(out + [' '] + s[..DigitRun(s)])
  {
    EmitNumber(out, s[..DigitRun(s)]);
  }

  /** The digit step keeps the text spaced, and the digits emitted plus those left are those read. */
  lemma NumberKeeps(s: string, c: Conv)
    requires s != [] && IsDigit(s[0]) && Spaced(c.out)
    ensures Spaced(c.out + [' '] + s[..DigitRun(s)])
    ensures Digits(c.out + [' '] + s[..DigitRun(s)]) + Digits(s[DigitRun(s)..]) == Digits(c.out) + Digits(s)
  {
    var k := DigitRun(s);
    var num, rest := s[..k], s[k..];
    EmitRun(c.out, s);
    assert Digits(s) == num + Digits(rest) by { RunDigits(s); }
    var d, e := Digits(c.out), Digits(rest);
    Regroup(d, num, e);
  }

  lemma Regroup(a: string, b: string, c: string)
    ensures (a + b) + c == a + (b + c)
  {
  }

  /**
   * What the main loop keeps when run over `s` from `c`: if it returns, the stack is
   * clean, the text spaced, and the digits emitted are exactly the digits read.
   */
  ghost predicate KeptOver(s: string, c: Conv) {
    Convert(s, c).Some? ==>
      Clean(Convert(s, c).value.ops) && Spaced(Convert(s, c).value.out)
      && Digits(Convert(s, c).value.out) == Digits(c.out) + Digits(s)
  }

  /**
   * The whole main loop keeps the stack clean and the text spaced, and the digits it
   * emits are exactly the digits it reads.
   */
  lemma {:induction false} ConvertKeeps(s: string, c: Conv)
    requires Clean(c.ops) && Spaced(c.out)
    ensures KeptOver(s, c)
    decreases |s|, 1
  {
    if s == [] {
    } else if IsDigit(s[0]) {
      NumberKept(s, c);
    } else if s[0] == ')' {
      CloseKept(s, c);
    } else {
      OtherKept(s, c);
    }
  }

  /** `ConvertKeeps` on input that starts with a digit run. */
  lemma {:induction false} NumberKept(s: string, c: Conv)
    requires s != [] && IsDigit(s[0]) && Clean(c.ops) && Spaced(c.out)
    ensures KeptOver(s, c)
    decreases |s|, 0
  {
    var k := DigitRun(s);
    var c' := Conv(c.out + [' '] + s[..k], c.ops);
    assert Convert(s, c) == Convert(s[k..], c');
    NumberKeeps(s, c);
    ConvertKeeps(s[k..], c');
  }

  /** `ConvertKeeps` on input that starts with ')'. */
  lemma {:induction false} CloseKept(s: string, c: Conv)
    requires s != [] && s[0] == ')' && Clean(c.ops) && Spaced(c.out)
    ensures KeptOver(s, c)
    decreases |s|, 0
  {
    UnwindKeeps(c);
    if Unwind(c).Some? {
      assert Convert(s, c) == Convert(s[1..], Unwind(c).value);
      ConvertKeeps(s[1..], Unwind(c).value);
    }
  }

  /** `ConvertKeeps` on input that starts with any other character. */
  lemma {:induction false} OtherKept(s: string, c: Conv)
    requires s != [] && !IsDigit(s[0]) && s[0] != ')' && Clean(c.ops) && Spaced(c.out)
    ensures KeptOver(s, c)
    decreases |s|, 0
  {
    StepKeeps(s[0], c);
    assert Convert(s, c) == Convert(s[1..], Step(s[0], c));
    ConvertKeeps(s[1..], Step(s[0], c));
  }

  /** Digits do not change the nesting depth. */
  lemma {:induction false} DepthSkipsDigits(s: string, k: nat, d: nat)
    requires k <= |s| && forall j :: 0 <= j < k ==> IsDigit(s[j])
    ensures FinalDepth(s, d) == FinalDepth(s[k..], d)
    decreases k
  {
    if k > 0 {
      DepthSkipsDigits(s[1..], k - 1, d);
      assert s[1..][k - 1..] == s[k..];
    }
  }

  /**
   * With as many '(' on the stack as the depth reached, matched input never gets
   * stuck on a ')'; the '(' left over are those never closed, and no parenthesis is
   * ever emitted.
   */
  lemma {:induction false} ConvertMatched(s: string, c: Conv, d: nat)
    requires Clean(c.ops) && Spaced(c.out) && Opens(c.ops) == d && NoParens(c.out)
    requires FinalDepth(s, d) >= 0
    ensures Convert(s, c).Some?
    ensures Opens(Convert(s, c).value.ops) == FinalDepth(s, d)
    ensures NoParens(Convert(s, c).value.out)
    decreases |s|
  {
    if s == [] {
    } else if IsDigit(s[0]) {
      var k := DigitRun(s);
      DepthSkipsDigits(s, k, d);
      var c' := Conv(c.out + [' '] + s[..k], c.ops);
      assert NoParens(c'.out) by {
        forall j | 0 <= j < |c'.out|
          ensures c'.out[j] != '(' && c'.out[j] != ')'
        {
          if j > |c.out| {
            assert c'.out[j] == s[j - |c.out| - 1];
          }
        }
      }
      ConvertMatched(s[k..], c', d);
    } else if s[0] == ')' {
      UnwindKeeps(c);
      ConvertMatched(s[1..], Unwind(c).value, d - 1);
    } else {
      StepKeeps(s[0], c);
      ConvertMatched(s[1..], Step(s[0], c), if s[0] == '(' then d + 1 else d);
    }
  }

  /** The empty state is where the converter starts. */
  lemma StartClean()
    ensures Clean([]) && Spaced([]) && NoParens([]) && Opens([]) == 0
  {
  }

  /**
   * infix_to_postfix returns normally on every input whose ')' are matched and which
   * has a digit, and its result holds exactly the input's digits, in order.
   */
  lemma MatchedConverts(s: string)
    requires Matched(s) && Digits(s) != []
    ensures Postfix(s).Some? && Digits(Postfix(s).value) == Digits(s)
  {
    var c0 := Conv([], []);
    ConvertMatched(s, c0, 0);
    ConvertKeeps(s, c0);
    var c := Convert(s, c0).value;
    assert Digits(c.out) == Digits(s);
    assert c.out != [];
    PostfixOf(s, c);
    SpacedTail(c.out);
    DrainPlain(c.ops);
    DigitsAppend(c.out[1..], Drain(c.ops));
  }

  /** Dropping the leading space of spaced text drops no digit. */
  lemma SpacedTail(out: string)
    requires out != [] && Spaced(out)
    ensures Digits(out[1..]) == Digits(out)
  {
    assert Digits([out[0]]) == [];
    DigitsAppend([out[0]], out[1..]);
    assert [out[0]] + out[1..] == out;
  }

  /** On balanced input the postfix text holds no parenthesis at all. */
  lemma BalancedHasNoParens(s: string)
    requires Balanced(s) && Digits(s) != []
    ensures Postfix(s).Some? && NoParens(Postfix(s).value)
  {
    var c0 := Conv([], []);
    ConvertMatched(s, c0, 0);
    ConvertKeeps(s, c0);
    var c := Convert(s, c0).value;
    assert c.out != [];
    PostfixOf(s, c);
    DrainPlain(c.ops);
    NoParensJoin(c.out, Drain(c.ops));
  }

  /** Text without parentheses, less its first character, then more such text. */
  lemma NoParensJoin(a: string, b: string)
    requires a != [] && NoParens(a) && NoParens(b)
    ensures NoParens(a[1..] + b)
  {
    var r := a[1..] + b;
    forall j | 0 <= j < |r|
      ensures r[j] != '(' && r[j] != ')'
    {
      if j < |a| - 1 {
        assert r[j] == a[j + 1];
      } else {
        assert r[j] == b[j - |a| + 1];
      }
    }
  }

  /**
   * Worked conversions: precedence, parentheses, and the single pop per incoming
   * operator, which leaves '-' below '+' in `1-2*3+4`.
   */
  lemma PrecedenceSteps()
    ensures Convert("1+2*3", Conv("", [])) == Convert("3", Conv(" 1 2", ['*', '+']))
  {
    assert "1+2*3"[1..] == "+2*3" && "1+2*3"[..1] == "1" && DigitRun("1+2*3") == 1;
    assert [] + [' '] + "1" == " 1";
    assert "+2*3"[1..] == "2*3";
    assert Step('+', Conv(" 1", [])) == Conv(" 1", ['+']);
    assert "2*3"[1..] == "*3" && "2*3"[..1] == "2" && DigitRun("2*3") == 1;
    assert " 1" + [' '] + "2" == " 1 2";
    assert "*3"[1..] == "3";
    assert Step('*', Conv(" 1 2", ['+'])) == Conv(" 1 2", ['*', '+']);
  }

  lemma PrecedenceConverts()
    ensures Convert("1+2*3", Conv("", [])) == Some(Conv(" 1 2 3", ['*', '+']))
  {
    PrecedenceSteps();
    assert "3"[1..] == "" && "3"[..1] == "3" && DigitRun("3") == 1;
    assert " 1 2" + [' '] + "3" == " 1 2 3";
  }

  lemma PrecedenceExample()
    ensures Postfix("1+2*3") == Some("1 2 3 * +")
  {
    PrecedenceConverts();
    PostfixOf("1+2*3", Conv(" 1 2 3", ['*', '+']));
    PrecedenceDrains();
  }

  lemma PrecedenceDrains()
    ensures " 1 2 3"[1..] + Drain(['*', '+']) == "1 2 3 * +"
  {
    assert Drain(['*', '+']) == " * +";
  }

  lemma ParenStepsA()
    ensures Convert("(1+2)*3", Conv("", [])) == Convert("2)*3", Conv(" 1", ['+', '(']))
  {
    assert "(1+2)*3"[1..] == "1+2)*3";
    assert Step('(', Conv("", [])) == Conv("", ['(']);
    assert "1+2)*3"[1..] == "+2)*3" && "1+2)*3"[..1] == "1" && DigitRun("1+2)*3") == 1;
    assert [] + [' '] + "1" == " 1";
    assert "+2)*3"[1..] == "2)*3";
    assert Step('+', Conv(" 1", ['('])) == Conv(" 1", ['+', '(']);
  }

  lemma ParenStepsB()
    ensures Convert("2)*3", Conv(" 1", ['+', '('])) == Convert("*3", Conv(" 1 2 +", []))
  {
    assert "2)*3"[1..] == ")*3" && "2)*3"[..1] == "2" && DigitRun("2)*3") == 1;
    assert " 1" + [' '] + "2" == " 1 2";
    assert ")*3"[1..] == "*3";
    assert " 1 2" + [' ', '+'] == " 1 2 +";
    assert Unwind(Conv(" 1 2", ['+', '('])) == Some(Conv(" 1 2 +", []));
  }

  lemma ParenStepsC()
    ensures Convert("*3", Conv(" 1 2 +", [])) == Some(Conv(" 1 2 + 3", ['*']))
  {
    assert "*3"[1..] == "3";
    assert Step('*', Conv(" 1 2 +", [])) == Conv(" 1 2 +", ['*']);
    assert "3"[1..] == "" && "3"[..1] == "3" && DigitRun("3") == 1;
    assert " 1 2 +" + [' '] + "3" == " 1 2 + 3";
  }

  lemma ParenthesesExample()
    ensures Postfix("(1+2)*3") == Some("1 2 + 3 *")
  {
    ParenConverts();
    PostfixOf("(1+2)*3", Conv(" 1 2 + 3", ['*']));
    assert Drain(['*']) == " *";
    assert " 1 2 + 3"[1..] + " *" == "1 2 + 3 *";
  }

  lemma ParenConverts()
    ensures Convert("(1+2)*3", Conv("", [])) == Some(Conv(" 1 2 + 3", ['*']))
  {
    ParenStepsA();
    ParenStepsB();
    ParenStepsC();
  }

  lemma SinglePopStepsA()
    ensures Convert("1-2*3+4", Conv("", [])) == Convert("*3+4", Conv(" 1 2", ['-']))
  {
    assert "1-2*3+4"[1..] == "-2*3+4" && "1-2*3+4"[..1] == "1" && DigitRun("1-2*3+4") == 1;
    assert [] + [' '] + "1" == " 1";
    assert "-2*3+4"[1..] == "2*3+4";
    assert Step('-', Conv(" 1", [])) == Conv(" 1", ['-']);
    assert "2*3+4"[1..] == "*3+4" && "2*3+4"[..1] == "2" && DigitRun("2*3+4") == 1;
    assert " 1" + [' '] + "2" == " 1 2";
  }

  lemma SinglePopStepsB()
    ensures Convert("*3+4", Conv(" 1 2", ['-'])) == Convert("4", Conv(" 1 2 3 *", ['+', '-']))
  {
    assert "*3+4"[1..] == "3+4";
    assert Step('*', Conv(" 1 2", ['-'])) == Conv(" 1 2", ['*', '-']);
    assert "3+4"[1..] == "+4" && "3+4"[..1] == "3" && DigitRun("3+4") == 1;
    assert " 1 2" + [' '] + "3" == " 1 2 3";
    assert "+4"[1..] == "4";
    assert " 1 2 3" + [' ', '*'] == " 1 2 3 *";
    assert Step('+', Conv(" 1 2 3", ['*', '-'])) == Conv(" 1 2 3 *", ['+', '-']);
  }

  lemma SinglePopStepsC()
    ensures Convert("4", Conv(" 1 2 3 *", ['+', '-'])) == Some(Conv(" 1 2 3 * 4", ['+', '-']))
  {
    assert "4"[1..] == "" && "4"[..1] == "4" && DigitRun("4") == 1;
    assert " 1 2 3 *" + [' '] + "4" == " 1 2 3 * 4";
  }

  lemma SinglePopConverts()
    ensures Convert("1-2*3+4", Conv("", [])) == Some(Conv(" 1 2 3 * 4", ['+', '-']))
  {
    SinglePopStepsA();
    SinglePopStepsB();
    SinglePopStepsC();
  }

  lemma SinglePopExample()
    ensures Postfix("1-2*3+4") == Some("1 2 3 * 4 + -")
  {
    SinglePopConverts();
    PostfixOf("1-2*3+4", Conv(" 1 2 3 * 4", ['+', '-']));
    SinglePopDrains();
  }

  lemma SinglePopDrains()
    ensures " 1 2 3 * 4"[1..] + Drain(['+', '-']) == "1 2 3 * 4 + -"
  {
    assert Drain(['+', '-']) == " + -";
  }

  /** The converter method on the three worked inputs. */
  method ConversionExamples() returns (a: string, b: string, c: string)
    ensures a == "1 2 3 * +"
    ensures b == "1 2 + 3 *"
    ensures c == "1 2 3 * 4 + -"
  {
    PrecedenceExample();
    ParenthesesExample();
    SinglePopExample();
    a := InfixToPostfix("1+2*3");
    b := InfixToPostfix("(1+2)*3");
    c := InfixToPostfix("1-2*3+4");
  }

  // ---------------------------------------------------------------------------
  // expression_evaluation
  // ---------------------------------------------------------------------------

  /** C++ `/` on integers: the quotient truncated toward zero. */
  function TruncDiv(x: int, y: int): (q: int)
    requires y != 0
    ensures Abs(x - q * y) < Abs(y)
    ensures x - q * y == 0 || (x - q * y < 0 <==> x < 0)
  {
    var a := Abs(x) / Abs(y);
    var q := if (x < 0) == (y < 0) then a else -a;
    TruncDivBounds(x, y, a, q);
    q
  }

  function Abs(x: int): nat {
    if x < 0 then -x else x
  }

  /** The remainder left by the truncated quotient, from the quotient of the magnitudes. */
  lemma TruncDivBounds(x: int, y: int, a: int, q: int)
    requires y != 0 && a == Abs(x) / Abs(y)
    requires q == if (x < 0) == (y < 0) then a else -a
    ensures Abs(x - q * y) < Abs(y)
    ensures x - q * y == 0 || (x - q * y < 0 <==> x < 0)
  {
    var m := Abs(x) - a * Abs(y);
    assert 0 <= m < Abs(y);
    if y < 0 {
      assert q * y == (if x < 0 then -(a * Abs(y)) else a * Abs(y));
    } else {
      assert q * y == (if x < 0 then -(a * Abs(y)) else a * Abs(y));
    }
    assert x - q * y == (if x < 0 then -m else m);
  }

  /**
   * `x op y` for one of the four operators, as `long` arithmetic without overflow;
   * None for a division by zero, which is undefined in the source.
   */
  function Apply(op: char, x: int, y: int): (r: Option<int>)
    requires IsOperator(op)
    ensures r.None? <==> op == '/' && y == 0
  {
    if op == '+' then Some(x + y)
    else if op == '-' then Some(x - y)
    else if op == '*' then Some(x * y)
    else if y == 0 then None
    else Some(TruncDiv(x, y))
  }

  /**
   * Which operand an operator takes first: as written the source computes
   * `top op second`; the evident intent is `second op top`.
   */
  datatype Order = AsWritten | Intended

  /** The character after an operator, which the extra `++i` skips, and the rest after it. */
  function SkipTwo(s: string): string {
    if |s| >= 2 then s[2..] else []
  }

  /**
   * The main loop of `expression_evaluation` run over the rest `s` of the input with
   * the operand stack `st`, top first: the stack it ends with, or None when an operator
   * finds fewer than two operands (popping an empty stack leaves `num1`/`num2`
   * uninitialised) or divides by zero.
   */
  function RunWith(s: string, st: seq<int>, order: Order): Option<seq<int>>
    decreases |s|
  {
    if s == [] then Some(st)
    else if IsDigit(s[0]) then RunWith(s[1..], [s[0] as int - '0' as int] + st, order)
    else if IsOperator(s[0]) then
      if |st| < 2 then None
      else
        var v := if order == AsWritten then Apply(s[0], st[0], st[1]) else Apply(s[0], st[1], st[0]);
        match v
        case None => None
        case Some(x) => RunWith(SkipTwo(s), [x] + st[2..], order)
    else RunWith(s[1..], st, order)
  }

  /** `get_top()` of the final stack: its top, or 0 when it is empty. */
  function TopOrZero(st: seq<int>): int {
    if st == [] then 0 else st[0]
  }

  /** What `expression_evaluation(s)` returns, or None where the source is undefined. */
  function Evaluate(s: string): Option<int> {
    match RunWith(s, [], AsWritten)
    case None => None
    case Some(st) => Some(TopOrZero(st))
  }

  /** The evaluator with each operator applied to `second op top`. */
  function EvaluateCorrected(s: string): Option<int> {
    match RunWith(s, [], Intended)
    case None => None
    case Some(st) => Some(TopOrZero(st))
  }

  /** The rest of the input from index `i`, which the extra `++i` can carry one past the end. */
  function Rest(s: string, i: nat): string {
    if i <= |s| then s[i..] else []
  }

  /** `expression_evaluation`, with its loop over the input and its operand stack. */
  method ExpressionEvaluation(str: string) returns (r: int)
    requires Evaluate(str).Some?
    ensures Some(r) == Evaluate(str)
  {
    var opa := new LinkedStack.Stack<int>(0);
    ghost var target := RunWith(str, [], AsWritten);
    var i := 0;
    while i < |str|
      invariant 0 <= i <= |str| + 1
      invariant opa.Valid() && fresh(opa) && opa.zero == 0
      invariant forall k :: 0 <= k < |opa.Nodes| ==> fresh(opa.Nodes[k])
      invariant RunWith(Rest(str, i), opa.Contents, AsWritten) == target
      invariant target.Some?
      decreases |str| + 1 - i
    {
      i := EvaluateOne(opa, str, i);
    }
    r := opa.GetTop();
  }

  /**
   * One pass of the evaluator's loop from index `i`: a digit run with the character
   * after it, or a single character.  A digit run that reaches the end leaves the loop,
   * as the source's `break` does.
   */
  method EvaluateOne(opa: LinkedStack.Stack<int>, str: string, i: nat) returns (next: nat)
    requires i < |str| && opa.Valid()
    requires RunWith(str[i..], opa.Contents, AsWritten).Some?
    modifies opa, opa.Nodes
    ensures i < next <= |str| + 1 && opa.Valid()
    ensures RunWith(Rest(str, next), opa.Contents, AsWritten) == RunWith(str[i..], old(opa.Contents), AsWritten)
    ensures forall k :: 0 <= k < |opa.Nodes| ==> opa.Nodes[k] in old(opa.Nodes) || fresh(opa.Nodes[k])
  {
    next := i;
    if IsDigit(str[next]) {
      next := PushDigits(opa, str, next);
      if next >= |str| {
        return;
      }
    }
    next := EvaluateSymbol(opa, str, next);
  }

  /**
   * The `switch` and the loop's own `++i`: an operator is applied and the character after
   * it skipped; any other character is passed over.
   */
  method EvaluateSymbol(opa: LinkedStack.Stack<int>, str: string, i: nat) returns (next: nat)
    requires i < |str| && !IsDigit(str[i]) && opa.Valid()
    requires RunWith(str[i..], opa.Contents, AsWritten).Some?
    modifies opa, opa.Nodes
    ensures i < next <= i + 2 && opa.Valid()
    ensures RunWith(Rest(str, next), opa.Contents, AsWritten) == RunWith(str[i..], old(opa.Contents), AsWritten)
    ensures forall k :: 0 <= k < |opa.Nodes| ==> opa.Nodes[k] in old(opa.Nodes) || fresh(opa.Nodes[k])
  {
    next := i;
    if IsOperator(str[next]) {
      next := ApplyTop(opa, str[next], str, next, RunWith(str[i..], opa.Contents, AsWritten));
    } else {
      assert str[i..][0] == str[i] && str[i..][1..] == str[i + 1..];
    }
    next := next + 1;
  }

  /** The digit branch of the evaluator: each digit of the run is pushed as its own operand. */
  method PushDigits(opa: LinkedStack.Stack<int>, str: string, i: nat) returns (next: nat)
    requires i <= |str| && opa.Valid()
    modifies opa
    ensures i <= next <= |str| && opa.Valid()
    ensures next == |str| || !IsDigit(str[next])
    ensures RunWith(str[next..], opa.Contents, AsWritten) == RunWith(str[i..], old(opa.Contents), AsWritten)
    ensures forall k :: 0 <= k < |opa.Nodes| ==> opa.Nodes[k] in old(opa.Nodes) || fresh(opa.Nodes[k])
  {
    next := i;
    while next < |str| && IsDigit(str[next])
      invariant i <= next <= |str| && opa.Valid()
      invariant forall k :: 0 <= k < |opa.Nodes| ==> opa.Nodes[k] in old(opa.Nodes) || fresh(opa.Nodes[k])
      invariant RunWith(str[next..], opa.Contents, AsWritten) == RunWith(str[i..], old(opa.Contents), AsWritten)
      decreases |str| - next
    {
      assert str[next..][0] == str[next] && str[next..][1..] == str[next + 1..];
      opa.Push(str[next] as int - '0' as int);
      next := next + 1;
    }
  }

  /**
   * One `case` of the switch: `pop(num1)`, `pop(num2)`, `push(num1 op num2)` and the
   * extra `++i`.
   */
  method ApplyTop(opa: LinkedStack.Stack<int>, ch: char, ghost str: string, i: nat,
                  ghost target: Option<seq<int>>) returns (next: nat)
    requires i < |str| && str[i] == ch && IsOperator(ch)
    requires opa.Valid() && target.Some?
    requires RunWith(str[i..], opa.Contents, AsWritten) == target
    modifies opa, opa.Nodes
    ensures next == i + 1 && opa.Valid()
    ensures RunWith(Rest(str, next + 1), opa.Contents, AsWritten) == target
    ensures forall k :: 0 <= k < |opa.Nodes| ==> opa.Nodes[k] in old(opa.Nodes) || fresh(opa.Nodes[k])
  {
    assert str[i..][0] == ch;
    assert SkipTwo(str[i..]) == Rest(str, i + 2);
    var num1 := opa.PopInto(0);
    var num2 := opa.PopInto(0);
    var v := Apply(ch, num1, num2);
    opa.Push(v.value);
    next := i + 1;
  }

  // ---------------------------------------------------------------------------
  // What the evaluator computes
  // ---------------------------------------------------------------------------

  type Digit = d: int | 0 <= d <= 9

  datatype Op = Add | Sub | Mul | Div

  /** An arithmetic expression over single digits. */
  datatype Expr = Num(digit: Digit) | Bin(op: Op, left: Expr, right: Expr)

  function Symbol(op: Op): (c: char)
    ensures IsOperator(c)
  {
    match op
    case Add => '+'
    case Sub => '-'
    case Mul => '*'
    case Div => '/'
  }

  /** The usual value of an expression, None when it divides by zero. */
  function Value(e: Expr): Option<int> {
    match e
    case Num(d) => Some(d)
    case Bin(op, l, r) =>
      match (Value(l), Value(r))
      case (Some(a), Some(b)) => Apply(Symbol(op), a, b)
      case _ => None
  }

  /** The expression with the operands of every operator swapped. */
  function Mirror(e: Expr): Expr {
    match e
    case Num(d) => e
    case Bin(op, l, r) => Bin(op, Mirror(r), Mirror(l))
  }

  /** The postfix text of an expression, operands and operators separated by single spaces. */
  function Render(e: Expr): string {
    match e
    case Num(d) => [(d + '0' as int) as char]
    case Bin(op, l, r) => Render(l) + [' '] + Render(r) + [' ', Symbol(op)]
  }

  /** The value the evaluator gives an expression under an operand order. */
  function ValueIn(e: Expr, order: Order): Option<int> {
    if order == Intended then Value(e) else Value(Mirror(e))
  }

  /** A space between tokens is read past without effect. */
  lemma SpaceSkipped(s: string, st: seq<int>, order: Order)
    requires s != [] && s[0] == ' '
    ensures RunWith(s, st, order) == RunWith(s[1..], st, order)
  {
  }

  /** The operand order an operator is applied in, to the items `a` below `b`. */
  function Combine(c: char, a: int, b: int, order: Order): Option<int>
    requires IsOperator(c)
  {
    if order == AsWritten then Apply(c, b, a) else Apply(c, a, b)
  }

  /** The tail ` op` of a rendered operation, with `b` on top of `a`. */
  lemma OperatorRendered(c: char, t: string, a: int, b: int, st: seq<int>, order: Order)
    requires IsOperator(c) && (t == [] || t[0] == ' ')
    ensures RunWith([' ', c] + t, [b] + ([a] + st), order) ==
      match Combine(c, a, b, order)
      case None => None
      case Some(v) => RunWith(t, [v] + st, order)
  {
    var st2 := [b] + ([a] + st);
    var u := [' ', c] + t;
    assert u[1..] == [c] + t;
    SpaceSkipped(u, st2, order);
    var w := [c] + t;
    assert w[0] == c;
    assert st2[0] == b && st2[1] == a && st2[2..] == st;
    assert SkipTwo(w) == (if t == [] then [] else t[1..]);
    if t != [] && Combine(c, a, b, order).Some? {
      SpaceSkipped(t, [Combine(c, a, b, order).value] + st, order);
    }
  }

  /** The value of an operation under an operand order, from its operands' values. */
  lemma ValueInBin(op: Op, l: Expr, r: Expr, order: Order)
    ensures ValueIn(Bin(op, l, r), order) ==
      match (ValueIn(l, order), ValueIn(r, order))
      case (Some(a), Some(b)) => Combine(Symbol(op), a, b, order)
      case _ => None
  {
  }

  /** The postfix text of an operation, cut after its left operand and after the space. */
  lemma RenderBinSplit(op: Op, l: Expr, r: Expr, t: string)
    ensures Render(Bin(op, l, r)) + t == Render(l) + ([' '] + (Render(r) + ([' ', Symbol(op)] + t)))
    ensures ([' '] + (Render(r) + ([' ', Symbol(op)] + t)))[1..] == Render(r) + ([' ', Symbol(op)] + t)
  {
  }

  /**
   * Evaluating the postfix text of `e`, followed by nothing or by a space, pushes the
   * value of `e` (mirrored, as written) on the stack, or fails exactly when that value
   * divides by zero.
   */
  lemma {:induction false} RunRendered(e: Expr, t: string, st: seq<int>, order: Order)
    requires t == [] || t[0] == ' '
    ensures RunWith(Render(e) + t, st, order) ==
      match ValueIn(e, order)
      case None => None
      case Some(v) => RunWith(t, [v] + st, order)
  {
    match e
    case Num(d) =>
      var s := Render(e) + t;
      assert s[0] == (d + '0' as int) as char && s[1..] == t;
    case Bin(op, l, r) =>
      var t2 := [' ', Symbol(op)] + t;
      var t1 := [' '] + (Render(r) + t2);
      RenderBinSplit(op, l, r, t);
      ValueInBin(op, l, r, order);
      RunRendered(l, t1, st, order);
      if ValueIn(l, order).Some? {
        var a := ValueIn(l, order).value;
        SpaceSkipped(t1, [a] + st, order);
        RunRendered(r, t2, [a] + st, order);
        if ValueIn(r, order).Some? {
          OperatorRendered(Symbol(op), t, a, ValueIn(r, order).value, st, order);
        }
      }
  }

  /** With each operator applied to `second op top`, the evaluator computes the usual value. */
  lemma CorrectedEvaluates(e: Expr)
    ensures EvaluateCorrected(Render(e)) == Value(e)
  {
    RunRendered(e, [], [], Intended);
    assert Render(e) + [] == Render(e);
  }

  /**
   * As written the evaluator computes `top op second`: the value of the mirrored
   * expression.
   */
  lemma AsWrittenMirrors(e: Expr)
    ensures Evaluate(Render(e)) == Value(Mirror(e))
  {
    RunRendered(e, [], [], AsWritten);
    assert Render(e) + [] == Render(e);
  }

  /** Only `+` and `*`. */
  predicate Commutative(e: Expr) {
    match e
    case Num(_) => true
    case Bin(op, l, r) => (op == Add || op == Mul) && Commutative(l) && Commutative(r)
  }

  lemma {:induction false} MirrorKeepsCommutative(e: Expr)
    requires Commutative(e)
    ensures Value(Mirror(e)) == Value(e)
  {
    match e
    case Num(_) =>
    case Bin(op, l, r) =>
      MirrorKeepsCommutative(l);
      MirrorKeepsCommutative(r);
  }

  /** On sums and products of digits the operand swap is harmless. */
  lemma CommutativeEvaluates(e: Expr)
    requires Commutative(e)
    ensures Evaluate(Render(e)) == Value(e)
  {
    AsWrittenMirrors(e);
    MirrorKeepsCommutative(e);
  }

  /** `1 2 -`: as written 2 - 1 = 1, where 1 - 2 = -1 is meant. */
  lemma SubtractionSwapped()
    ensures Evaluate("1 2 -") == Some(1)
    ensures EvaluateCorrected("1 2 -") == Some(-1)
  {
    var e := Bin(Sub, Num(1), Num(2));
    assert Render(e) == "1 2 -";
    AsWrittenMirrors(e);
    CorrectedEvaluates(e);
  }

  /** `12 3 +`: each digit of `12` is an operand of its own, and the sum is 3 + 2. */
  lemma DigitsAreOperands()
    ensures Evaluate("12 3 +") == Some(5)
  {
    var e := Bin(Add, Num(2), Num(3));
    assert Render(e) + [] == "2 3 +";
    RunRendered(e, [], [1], AsWritten);
    assert "12 3 +"[0] == '1' && "12 3 +"[1..] == "2 3 +";
  }

  /**
   * The evaluator method on `1 2 -`, and on `12 3 +`, where the digits of `12` are two
   * operands and the sum is 3 + 2.
   */
  method EvaluationExamples() returns (difference: int, sum: int)
    ensures difference == 1 && sum == 5
  {
    SubtractionSwapped();
    DigitsAreOperands();
    difference := ExpressionEvaluation("1 2 -");
    sum := ExpressionEvaluation("12 3 +");
  }
}
