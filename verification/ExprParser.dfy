/** The expression parser: one cursor over a token list, shared by recursive calls.

    `ParseChain` is a plain recursive-descent reading of the language; the method `ProcessToken`, which
    threads the cursor and the operation being filled, is proved equal to it. `Unit` and `Chain`
    are the phrases of the grammar; the parser is proved to accept a token list exactly when it
    begins with a phrase, and to build that phrase's left-associative tree. */
module Parsing {
  import opened Wrappers

  /** Tokens as `TokenizeExpr` classifies them; a function carries its number of operands, None
      when it accepts any number. */
  datatype Token =
    | Atom(name: string)
    | Operator(op: string)
    | UnaryOperator(op: string)
    | Function(name: string, arity: Option<nat>)
    | OpenGroup
    | CloseGroup
    | Separator

  datatype Head =
    | Binary(op: string)
    | Unary(op: string)
    | Call(name: string, arity: Option<nat>)
    | GroupOf

  /** An operation with the operands set so far; a leaf is an operand variable. */
  datatype Tree = Leaf(name: string) | Node(head: Head, args: seq<Tree>)

  datatype Result<+T> = Fail | Parsed(value: T, next: nat)

  // ---- Reference parser -------------------------------------------------------------------

  /** Unary operators, then a literal, a variable, a group or a call. */
  function ParseUnit(toks: seq<Token>, i: nat): (r: Result<Tree>)
    ensures r.Parsed? ==> i < r.next <= |toks|
    decreases |toks| - i, 0
  {
    if i >= |toks| then Fail
    else match toks[i]
      case Atom(name) => Parsed(Leaf(name), i + 1)
      case UnaryOperator(op) =>
        var u := ParseUnit(toks, i + 1);
        if u.Fail? then Fail else Parsed(Node(Unary(op), [u.value]), u.next)
      case OpenGroup =>
        var c := ParseChain(toks, i + 1);
        if c.Fail? || c.next >= |toks| || !toks[c.next].CloseGroup? then Fail
        else Parsed(Node(GroupOf, [c.value]), c.next + 1)
      case Function(name, arity) =>
        if i + 2 >= |toks| || !toks[i + 1].OpenGroup? then Fail
        else if arity == Some(0) || (arity.None? && toks[i + 2].CloseGroup?) then
          if toks[i + 2].CloseGroup? then Parsed(Node(Call(name, arity), []), i + 3) else Fail
        else
          var a := ParseArgs(toks, i + 2, arity);
          if a.Fail? then Fail else Parsed(Node(Call(name, arity), a.value), a.next)
      case _ => Fail
  }

  /** `U op U op ... U`, all operators at one precedence, grouped to the left. */
  function ParseChain(toks: seq<Token>, i: nat): (r: Result<Tree>)
    ensures r.Parsed? ==> i < r.next <= |toks|
    decreases |toks| - i, 1
  {
    var u := ParseUnit(toks, i);
    if u.Fail? then Fail else ParseRest(toks, u.value, u.next)
  }

  function ParseRest(toks: seq<Token>, left: Tree, i: nat): (r: Result<Tree>)
    requires i <= |toks|
    ensures r.Parsed? ==> i <= r.next <= |toks|
    decreases |toks| - i, 1
  {
    if i < |toks| && toks[i].Operator? then
      var u := ParseUnit(toks, i + 1);
      if u.Fail? then Fail else ParseRest(toks, Node(Binary(toks[i].op), [left, u.value]), u.next)
    else Parsed(left, i)
  }

  /** At least one operand, separated by commas, up to and including the closing parenthesis;
      exactly `n` of them when `arity` is Some(n). */
  function ParseArgs(toks: seq<Token>, i: nat, arity: Option<nat>): (r: Result<seq<Tree>>)
    requires arity != Some(0)
    ensures r.Parsed? ==> i < r.next <= |toks| && |r.value| > 0 && (arity.Some? ==> |r.value| == arity.value)
    decreases |toks| - i, 2
  {
    var c := ParseChain(toks, i);
    if c.Fail? || c.next >= |toks| then Fail
    else if toks[c.next].CloseGroup? && (arity.None? || arity.value == 1) then
      Parsed([c.value], c.next + 1)
    else if toks[c.next].Separator? && arity != Some(1) then
      var rest := ParseArgs(toks, c.next + 1, if arity.None? then None else Some(arity.value - 1));
      if rest.Fail? then Fail else Parsed([c.value] + rest.value, rest.next)
    else Fail
  }

  // ---- The source's parser ----------------------------------------------------------------

  /** Number of operands the operation can hold. */
  function Capacity(h: Head): Option<nat> {
    match h
    case Binary(_) => Some(2)
    case Unary(_) => Some(1)
    case GroupOf => Some(1)
    case Call(_, arity) => arity
  }

  /** `SetOperandVariable` and `SetOperandOperation` succeed on the next operand. */
  predicate HasRoom(t: Tree) {
    t.Node? && (Capacity(t.head).None? || |t.args| < Capacity(t.head).value)
  }

  function SetOperand(t: Tree, operand: Tree): (r: Tree)
    requires t.Node?
    ensures t.args == [] ==> r == Node(t.head, [operand])
    ensures |t.args| == 1 ==> r == Node(t.head, [t.args[0], operand])
  {
    assert t.args == [] ==> t.args + [operand] == [operand];
    assert |t.args| == 1 ==> t.args + [operand] == [t.args[0], operand];
    t.(args := t.args + [operand])
  }

  /** What filling the next operand of `cur` from position `pos` should give. */
  function Filled(cur: Tree, toks: seq<Token>, pos: nat): Result<Tree>
    requires cur.Node?
  {
    match cur.head
    case Unary(_) =>
      var u := ParseUnit(toks, pos);
      if u.Fail? then Fail else Parsed(SetOperand(cur, u.value), u.next)
    case Binary(_) =>
      var u := ParseUnit(toks, pos);
      if u.Fail? then Fail else ParseRest(toks, SetOperand(cur, u.value), u.next)
    case _ =>
      var c := ParseChain(toks, pos);
      if c.Fail? then Fail else Parsed(SetOperand(cur, c.value), c.next)
  }

  /** `Evaluator::_ProcessToken`. On success `last` is the last token consumed. The operation
      under construction is passed in and handed back filled, or, for a binary operator followed
      by another, the outermost operation of the chain. */
  method ProcessToken(cur: Tree, toks: seq<Token>, pos: nat) returns (r: Option<Tree>, last: nat)
    requires pos < |toks| && HasRoom(cur)
    requires cur.head.Binary? ==> |cur.args| == 1
    ensures r.Some? <==> Filled(cur, toks, pos).Parsed?
    ensures r.Some? ==> pos <= last < |toks| && Filled(cur, toks, pos) == Parsed(r.value, last + 1)
    decreases |toks| - pos, 1
  {
    var operand: Option<Tree>;
    operand, last := ProcessOperand(toks, pos);
    if operand.None? {
      assert ParseChain(toks, pos).Fail?;
      return None, last;
    }
    ghost var next := last + 1;
    var left := if cur.head.Binary? then SetOperand(cur, operand.value) else operand.value;
    assert !cur.head.Unary? ==> ParseRest(toks, left, next) ==
                                if cur.head.Binary? then Filled(cur, toks, pos) else ParseChain(toks, pos);
    if !cur.head.Unary? && last + 1 < |toks| && toks[last + 1].Operator? {
      var op := toks[last + 1].op;
      if last + 2 == |toks| {
        assert ParseUnit(toks, last + 2).Fail?;
        return None, last;
      }
      var rest := Node(Binary(op), [left]);
      assert Filled(rest, toks, last + 2) == ParseRest(toks, left, next);
      r, last := ProcessToken(rest, toks, last + 2);
      if r.None? {
        return;
      }
      if !cur.head.Binary? {
        r := Some(SetOperand(cur, r.value));
      }
    } else {
      r := Some(SetOperand(cur, operand.value));
      assert !cur.head.Unary? ==> ParseRest(toks, left, next) == Parsed(left, next);
    }
  }

  /** The token switch of `_ProcessToken`: one operand, before looking for an operator. */
  method ProcessOperand(toks: seq<Token>, pos: nat) returns (r: Option<Tree>, last: nat)
    requires pos < |toks|
    ensures r.Some? <==> ParseUnit(toks, pos).Parsed?
    ensures r.Some? ==> pos <= last < |toks| && ParseUnit(toks, pos) == Parsed(r.value, last + 1)
    decreases |toks| - pos, 0, 1
  {
    last := pos;
    match toks[pos]
    case Atom(name) =>
      r := Some(Leaf(name));
    case UnaryOperator(op) =>
      if pos + 1 == |toks| {
        return None, last;
      }
      r, last := ProcessToken(Node(Unary(op), []), toks, pos + 1);
    case OpenGroup =>
      if pos + 1 == |toks| {
        return None, last;
      }
      r, last := ProcessToken(Node(GroupOf, []), toks, pos + 1);
      if r.None? {
        return;
      }
      if last + 1 == |toks| || !toks[last + 1].CloseGroup? {
        return None, last;
      }
      last := last + 1;
    case Function(name, arity) =>
      r, last := ProcessCall(toks, pos);
    case _ =>
      r := None;
  }

  method ProcessCall(toks: seq<Token>, pos: nat) returns (r: Option<Tree>, last: nat)
    requires pos < |toks| && toks[pos].Function?
    ensures r.Some? <==> ParseUnit(toks, pos).Parsed?
    ensures r.Some? ==> pos <= last < |toks| && ParseUnit(toks, pos) == Parsed(r.value, last + 1)
    decreases |toks| - pos, 0, 0
  {
    var arity := toks[pos].arity;
    var call := Node(Call(toks[pos].name, arity), []);
    last := pos + 1;
    if last == |toks| || !toks[last].OpenGroup? {
      return None, last;
    }
    last := last + 1;
    if last == |toks| {
      return None, last;
    }
    if arity.None? {
      if toks[last].CloseGroup? {
        return Some(call), last;
      }
      r, last := ProcessAnyArgs(call, toks, last);
    } else if arity == Some(0) {
      r := if toks[last].CloseGroup? then Some(call) else None;
    } else {
      r, last := ProcessFixedArgs(call, toks, last);
    }
  }

  /** The operands of a function that takes any number of them. */
  method ProcessAnyArgs(fn: Tree, toks: seq<Token>, pos: nat) returns (r: Option<Tree>, last: nat)
    requires pos < |toks| && fn.Node? && fn.head.Call? && fn.head.arity.None? && fn.args == []
    ensures r.Some? <==> ParseArgs(toks, pos, None).Parsed?
    ensures r.Some? ==> pos <= last < |toks| && r.value.Node? && r.value.head == fn.head
    ensures r.Some? ==> ParseArgs(toks, pos, None) == Parsed(r.value.args, last + 1)
    decreases |toks| - pos, 2
  {
    var call := fn;
    last := pos;
    NothingDone(toks, last, None);
    while true
      invariant pos <= last < |toks| && call.Node? && call.head == fn.head
      invariant ArgsLeft(toks, call.args, last, None) == ParseArgs(toks, pos, None)
      decreases |toks| - last
    {
      OneMore(toks, call.args, last, None);
      r, last := ProcessToken(call, toks, last);
      if r.None? {
        return;
      }
      call := r.value;
      last := last + 1;
      if last == |toks| {
        return None, last;
      }
      if toks[last].CloseGroup? {
        return;
      }
      if !toks[last].Separator? {
        return None, last;
      }
      last := last + 1;
      if last == |toks| {
        return None, last;
      }
    }
  }

  /** The operands of a function with a fixed, positive number of them. */
  method ProcessFixedArgs(fn: Tree, toks: seq<Token>, pos: nat) returns (r: Option<Tree>, last: nat)
    requires pos < |toks| && fn.Node? && fn.head.Call? && fn.args == []
    requires fn.head.arity.Some? && fn.head.arity.value > 0
    ensures r.Some? <==> ParseArgs(toks, pos, fn.head.arity).Parsed?
    ensures r.Some? ==> pos <= last < |toks| && r.value.Node? && r.value.head == fn.head
    ensures r.Some? ==> ParseArgs(toks, pos, fn.head.arity) == Parsed(r.value.args, last + 1)
    decreases |toks| - pos, 2
  {
    var call, n := fn, fn.head.arity.value;
    last := pos;
    NothingDone(toks, last, Some(n));
    for i := 0 to n
      invariant pos <= last <= |toks| && call.Node? && call.head == fn.head && |call.args| == i
      invariant i < n ==> ArgsLeft(toks, call.args, last, Some(n - i)) == ParseArgs(toks, pos, Some(n))
      invariant i == n ==> last < |toks| && ParseArgs(toks, pos, Some(n)) == Parsed(call.args, last + 1)
    {
      if last == |toks| {
        return None, last;
      }
      OneMore(toks, call.args, last, Some(n - i));
      r, last := ProcessToken(call, toks, last);
      if r.None? {
        return;
      }
      call := r.value;
      if last + 1 == |toks| {
        return None, last;
      }
      if i + 1 == n {
        if !toks[last + 1].CloseGroup? {
          return None, last;
        }
        last := last + 1;
      } else {
        if !toks[last + 1].Separator? {
          return None, last;
        }
        last := last + 2;
      }
    }
    r := Some(call);
  }

  /** The operands already read, followed by those still to come. */
  ghost function ArgsLeft(toks: seq<Token>, done: seq<Tree>, i: nat, arity: Option<nat>): Result<seq<Tree>>
    requires arity != Some(0)
  {
    var a := ParseArgs(toks, i, arity);
    if a.Fail? then Fail else Parsed(done + a.value, a.next)
  }

  lemma NothingDone(toks: seq<Token>, i: nat, arity: Option<nat>)
    requires arity != Some(0)
    ensures ArgsLeft(toks, [], i, arity) == ParseArgs(toks, i, arity)
  {
    var a := ParseArgs(toks, i, arity);
    if a.Parsed? {
      assert [] + a.value == a.value;
    }
  }

  /** Reading one more operand moves it to the ones already done. */
  lemma OneMore(toks: seq<Token>, done: seq<Tree>, i: nat, arity: Option<nat>)
    requires arity != Some(0)
    ensures var c := ParseChain(toks, i);
            if c.Fail? || c.next >= |toks| then ArgsLeft(toks, done, i, arity).Fail?
            else if toks[c.next].CloseGroup? && (arity.None? || arity.value == 1) then
              ArgsLeft(toks, done, i, arity) == Parsed(done + [c.value], c.next + 1)
            else if toks[c.next].Separator? && arity != Some(1) then
              ArgsLeft(toks, done, i, arity)
              == ArgsLeft(toks, done + [c.value], c.next + 1, if arity.None? then None else Some(arity.value - 1))
            else ArgsLeft(toks, done, i, arity).Fail?
  {
    var c := ParseChain(toks, i);
    if c.Parsed? && c.next < |toks| && toks[c.next].Separator? && arity != Some(1) {
      var rest := ParseArgs(toks, c.next + 1, if arity.None? then None else Some(arity.value - 1));
      if rest.Parsed? {
        assert done + ([c.value] + rest.value) == (done + [c.value]) + rest.value;
      }
    }
  }

  /** `Evaluator::ParseExpr` on a token list: the whole expression is the operand of a group. */
  method ParseExpr(toks: seq<Token>) returns (r: Option<Tree>)
    ensures r == if ParseChain(toks, 0).Parsed? then Some(Node(GroupOf, [ParseChain(toks, 0).value])) else None
  {
    if toks == [] {
      return None;
    }
    var last: nat;
    r, last := ProcessToken(Node(GroupOf, []), toks, 0);
  }
}
