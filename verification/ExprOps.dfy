/** The evaluator of scalar expressions: operations that rewrite themselves.

    An operation folds its constant operands into flagged result variables the first time it is
    evaluated, and from then on answers from them. The tree an operation was parsed into is its
    ghost field `tree`; `Denote` is the plain meaning of that tree. */
module Folding {
  import opened Wrappers

  /** A scalar, as the bit pattern of a 64-bit float. Operators are arbitrary total functions on
      patterns, so nothing here depends on how they round. */
  newtype Num = x: int | 0 <= x < 0x1_0000_0000_0000_0000

  const ZERO: Num := 0
  const MINUS_ZERO: Num := 0x8000_0000_0000_0000

  /** `GetFloat() != 0`: both zeros are false. */
  predicate Truth(n: Num) {
    n != ZERO && n != MINUS_ZERO
  }

  /** Strict operators and functions evaluate every operand; Cond is the lazy `If`. */
  datatype Kind =
    | Strict(fn: seq<Num> -> Num)
    | UnaryPlus
    | Group
    | Cond

  /** An expression as parsed: literals, variables of the context, operations. */
  datatype Expr =
    | Literal(n: Num)
    | Variable(v: ExprVar)
    | Apply(kind: Kind, args: seq<Expr>)

  type Env = map<ExprVar, Num>

  /** The value of `e` when the context's variables hold `env`; None when evaluation fails. */
  ghost function Denote(e: Expr, env: Env): Option<Num>
    decreases e, 1
  {
    match e
    case Literal(n) => Some(n)
    case Variable(v) => if v in env then Some(env[v]) else None
    case Apply(kind, args) =>
      match kind
      case Strict(fn) =>
        var vals := DenoteAll(args, env);
        if vals.Some? then Some(fn(vals.value)) else None
      case UnaryPlus => None
      case Group => if |args| == 1 then Denote(args[0], env) else None
      case Cond =>
        if |args| < 3 || |args| % 2 != 1 then None else DenoteCond(args, env)
  }

  ghost function DenoteAll(es: seq<Expr>, env: Env): (r: Option<seq<Num>>)
    ensures r.Some? ==> |r.value| == |es|
    decreases es, 0
  {
    if es == [] then Some([])
    else
      var rest := DenoteAll(es[..|es| - 1], env);
      var last := Denote(es[|es| - 1], env);
      if rest.Some? && last.Some? then Some(rest.value + [last.value]) else None
  }

  /** Test, value, test, value, ..., otherwise: only the chosen value is looked at. */
  ghost function DenoteCond(es: seq<Expr>, env: Env): Option<Num>
    requires |es| % 2 == 1
    decreases es, 0
  {
    if |es| == 1 then Denote(es[0], env)
    else
      var test := Denote(es[0], env);
      if test.None? then None
      else if Truth(test.value) then Denote(es[1], env)
      else DenoteCond(es[2..], env)
  }

  /** A number that is neither of the two zeros, whose patterns are all bits clear, or all but the sign. */
  ghost predicate Passes(n: Option<Num>) {
    n.Some? && n.value as int != 0 && n.value as int != 0x8000_0000_0000_0000
  }

  ghost predicate Fails(n: Option<Num>) {
    n.Some? && (n.value as int == 0 || n.value as int == 0x8000_0000_0000_0000)
  }

  /** `If` over tests and values in turn: after tests that fail, the first that passes chooses the value
      after it; when all fail, the last operand is chosen; a test without a value before one passes
      leaves none. */
  lemma {:induction false} IfChooses(args: seq<Expr>, env: Env, j: nat)
    requires |args| >= 3 && |args| % 2 == 1 && 2 * j < |args|
    requires forall i :: 0 <= i < j ==> Fails(Denote(args[2 * i], env))
    ensures 2 * j + 1 < |args| && Passes(Denote(args[2 * j], env)) ==>
      Denote(Apply(Cond, args), env) == Denote(args[2 * j + 1], env)
    ensures 2 * j + 1 == |args| ==> Denote(Apply(Cond, args), env) == Denote(args[2 * j], env)
    ensures 2 * j + 1 < |args| && Denote(args[2 * j], env) == None ==> Denote(Apply(Cond, args), env) == None
    decreases |args|
  {
    if j > 0 {
      assert Fails(Denote(args[2 * 0], env));
      var rest := args[2..];
      forall i | 0 <= i < j - 1 ensures Fails(Denote(rest[2 * i], env)) {
        assert rest[2 * i] == args[2 * (i + 1)];
      }
      assert rest[2 * (j - 1)] == args[2 * j];
      if |args| >= 5 {
        IfChooses(rest, env, j - 1);
        assert 2 * j + 1 < |args| ==> rest[2 * (j - 1) + 1] == args[2 * j + 1];
      } else {
        assert rest == [args[2]];
        assert DenoteCond(args, env) == DenoteCond(rest, env);
      }
    }
  }

  /** No context variable occurs in `e`. */
  ghost predicate Closed(e: Expr) {
    match e
    case Literal(_) => true
    case Variable(_) => false
    case Apply(_, args) => forall a :: a in args ==> Closed(a)
  }

  /** Two lists that mean the same, operand by operand. */
  ghost predicate SameMeaning(es: seq<Expr>, env: Env, fs: seq<Expr>, env': Env) {
    |es| == |fs| && forall i :: 0 <= i < |es| ==> Denote(es[i], env) == Denote(fs[i], env')
  }

  /** An operation's meaning depends on its operands' meanings only. */
  lemma SameApply(kind: Kind, es: seq<Expr>, env: Env, fs: seq<Expr>, env': Env)
    requires SameMeaning(es, env, fs, env')
    ensures Denote(Apply(kind, es), env) == Denote(Apply(kind, fs), env')
  {
    SameAll(es, env, fs, env');
    if |es| % 2 == 1 {
      SameCond(es, env, fs, env');
    }
  }

  lemma {:induction false} SameAll(es: seq<Expr>, env: Env, fs: seq<Expr>, env': Env)
    requires SameMeaning(es, env, fs, env')
    ensures DenoteAll(es, env) == DenoteAll(fs, env')
    decreases |es|
  {
    if es != [] {
      SameAll(es[..|es| - 1], env, fs[..|fs| - 1], env');
    }
  }

  lemma {:induction false} SameCond(es: seq<Expr>, env: Env, fs: seq<Expr>, env': Env)
    requires SameMeaning(es, env, fs, env') && |es| % 2 == 1
    ensures DenoteCond(es, env) == DenoteCond(fs, env')
    decreases |es|
  {
    if |es| > 1 {
      SameCond(es[2..], env, fs[2..], env');
    }
  }

  /** A closed expression means the same in every environment. */
  lemma {:induction false} ClosedIsConstant(e: Expr, env: Env, env': Env)
    requires Closed(e)
    ensures Denote(e, env) == Denote(e, env')
    decreases e
  {
    if e.Apply? {
      forall i | 0 <= i < |e.args|
        ensures Denote(e.args[i], env) == Denote(e.args[i], env')
      {
        ClosedIsConstant(e.args[i], env, env');
      }
      SameApply(e.kind, e.args, env, e.args, env');
    }
  }

  class ExprVar {
    var value: Num
    var constant: bool

    constructor (value: Num, constant: bool)
      ensures this.value == value && this.constant == constant
    {
      this.value := value;
      this.constant := constant;
    }
  }

  ghost function Snapshot(vars: set<ExprVar>): Env
    reads vars
  {
    map v | v in vars :: v.value
  }

  datatype Operand = Var(v: ExprVar) | Operation(op: Op)

  class Op {
    const kind: Kind
    var operands: seq<Operand>
    var result: ExprVar?
    var evaluated: bool

    /** The operation as parsed, and the objects it may touch: `vars` are the context's mutable
        variables and `lits` its constants, neither ever written here; `Repr` are the operations
        and result variables below this one, split into one part per operand. */
    ghost const tree: Expr
    ghost const vars: set<ExprVar>
    ghost const lits: set<ExprVar>
    ghost var Repr: set<object>
    ghost var parts: seq<set<object>>

    /** An operation filled with operands that are constants, context variables or operations
        disjoint from each other: the state the parser leaves it in. */
    constructor (kind: Kind, operands: seq<Operand>, ghost tree: Expr,
                 ghost vars: set<ExprVar>, ghost lits: set<ExprVar>, ghost parts: seq<set<object>>)
      requires tree.Apply? && tree.kind == kind && |operands| == |tree.args| == |parts|
      requires kind.Group? ==> |operands| == 1
      requires vars !! lits
      requires (forall v :: v in vars ==> !v.constant) && (forall v :: v in lits ==> v.constant)
      requires forall i :: 0 <= i < |parts| ==> parts[i] !! vars && parts[i] !! lits
      requires forall i, j :: 0 <= i < j < |parts| ==> parts[i] !! parts[j]
      requires forall i :: 0 <= i < |operands| ==> Fits(operands[i], tree.args[i], vars, lits, parts[i])
      ensures Valid() && this.tree == tree && this.vars == vars && this.lits == lits
      ensures fresh(Repr - Union(parts))
    {
      this.kind := kind;
      this.operands := operands;
      this.result := null;
      this.evaluated := false;
      this.tree := tree;
      this.vars := vars;
      this.lits := lits;
      this.parts := parts;
      this.Repr := {this} + Union(parts);
      new;
      assert Shape();
      forall i | 0 <= i < |operands|
        ensures OperandOK(i)
      {
        assert Fits(operands[i], tree.args[i], vars, lits, parts[i]);
      }
      assert ResultOK();
    }

    ghost predicate Valid()
      reads this, Repr, lits, vars`constant
      decreases tree, 2
    {
      && Shape()
      && (forall i :: 0 <= i < |operands| ==> OperandOK(i))
      && ResultOK()
    }

    ghost predicate Shape()
      reads this, lits, vars`constant
    {
      && this in Repr && Repr !! lits && Repr !! vars && vars !! lits
      && (forall v :: v in vars ==> !v.constant)
      && (forall v :: v in lits ==> v.constant)
      && tree.Apply? && tree.kind == kind
      && |operands| == |tree.args| == |parts|
      && (kind.Group? ==> |operands| == 1)
      && (forall i :: 0 <= i < |parts| ==> parts[i] <= Repr && this !in parts[i])
      && (forall i, j :: 0 <= i < j < |parts| ==> parts[i] !! parts[j])
    }

    ghost predicate OperandOK(i: nat)
      requires Shape() && i < |operands|
      reads this, Repr, lits, vars`constant
      decreases tree, 0
    {
      match operands[i]
      case Operation(c) =>
        && c in parts[i] && c.Repr == parts[i]
        && c.tree == tree.args[i] && c.vars == vars && c.lits == lits
        && c.Valid()
        && (evaluated && !kind.Cond? ==> !Closed(tree.args[i]))
      case Var(v) =>
        Stands(v, i)
    }

    /** Variable `v` may stand for operand `i`: it is that variable of the context, or a constant
        holding the value of a closed operand. */
    ghost predicate Stands(v: ExprVar, i: nat)
      requires tree.Apply? && i < |tree.args| == |parts|
      requires parts[i] <= Repr
      reads this, Repr, lits
    {
      || (tree.args[i] == Variable(v) && v in vars)
      || ((v in lits || v in parts[i]) && v.constant
          && Closed(tree.args[i]) && Denote(tree.args[i], map[]) == Some(v.value))
    }

    /** A group's result is its operand's variable; every other result is private and unflagged. */
    ghost predicate ResultOK()
      requires Shape() && forall i :: 0 <= i < |operands| ==> OperandOK(i)
      reads this, Repr, lits, vars`constant
      decreases tree, 1
    {
      && (result != null ==>
            && evaluated
            && (result in vars || result in lits || result in Repr)
            && (result in vars ==> !Closed(tree))
            && (result !in vars && result.constant ==>
                  Closed(tree) && Denote(tree, map[]) == Some(result.value)))
      && (match kind
          case Group => assert OperandOK(0); evaluated ==> result != null && result == OperandVar(0)
          case UnaryPlus => !evaluated
          case Strict(_) => (evaluated ==> result != null) && PrivateResult()
          case Cond => PrivateResult())
    }

    ghost predicate PrivateResult()
      reads this, Repr
    {
      result != null ==>
        && result in Repr && !result.constant
        && (forall i :: 0 <= i < |parts| ==> result !in parts[i])
    }

    /** An operand's variable belongs to the context or to the operand's own part. */
    lemma OperandVarOwned(i: nat)
      requires Valid() && i < |operands|
      ensures OperandVar(i) != null ==>
                OperandVar(i) in vars || OperandVar(i) in lits || OperandVar(i) in parts[i]
      ensures OperandVar(i) != null && OperandVar(i) in vars ==> !Closed(tree.args[i])
      ensures OperandVar(i) != null && OperandVar(i) !in vars && OperandVar(i).constant ==>
                Closed(tree.args[i]) && Denote(tree.args[i], map[]) == Some(OperandVar(i).value)
    {
      assert OperandOK(i);
      match operands[i]
      case Var(v) =>
      case Operation(c) => assert c.Valid() && c.ResultOK();
    }

    /** `sOperand::GetVariable`. */
    function OperandVar(i: nat): ExprVar?
      requires i < |operands|
      reads this, if operands[i].Operation? then {operands[i].op} else {}
    {
      match operands[i]
      case Var(v) => v
      case Operation(c) => c.result
    }

    /** `Op::IsConstant` and `AreOperandsConstant`: every operation of the model has `mbConstant`. */
    method IsConstant() returns (b: bool)
      requires Valid()
      ensures b == Closed(tree)
      decreases tree
    {
      b := true;
      for i := 0 to |operands|
        invariant b == (forall j :: 0 <= j < i ==> Closed(tree.args[j]))
      {
        var c: bool;
        assert OperandOK(i);
        if operands[i].Operation? {
          c := operands[i].op.IsConstant();
        } else {
          c := operands[i].v.constant;
        }
        assert c == Closed(tree.args[i]);
        b := b && c;
      }
    }

    /** `Op::Eval`: a non-null result holds the plain meaning of the operation as parsed, and the
        result is null exactly when that meaning is undefined. Every constant operand of a strict
        operation ends up folded, and a constant result is never computed again. */
    method Eval() returns (r: ExprVar?)
      requires Valid()
      modifies Repr
      ensures Valid() && fresh(Repr - old(Repr))
      ensures r == null <==> Denote(tree, Snapshot(vars)).None?
      ensures r != null ==> r == result && Denote(tree, Snapshot(vars)) == Some(r.value)
      ensures old(result) != null ==> result == old(result)
      ensures r != null && !kind.Cond? ==> evaluated && Folded()
      ensures old(result != null && result.constant) ==> r == old(result) && unchanged(old(Repr))
      decreases tree, 2
    {
      if result != null && result.constant {
        ClosedIsConstant(tree, map[], Snapshot(vars));
        ValidIsFolded();
        return result;
      }
      if kind.Cond? {
        r := EvalCond();
        return;
      }
      var ok := EvalOperands();
      if !ok { return null; }
      if !evaluated {
        FoldOperands();
        ok := SetupEvaluation();
        if !ok { return null; }
      }
      DoEvaluate();
      ValidIsFolded();
      r := result;
    }

    /** `sOperand::Eval` on operand `i`; the other operands keep their variables and values. */
    method EvalOperand(i: nat) returns (ok: bool)
      requires Valid() && i < |operands|
      modifies Repr
      ensures Valid() && fresh(Repr - old(Repr))
      ensures operands == old(operands) && result == old(result) && evaluated == old(evaluated)
      ensures ok <==> Denote(tree.args[i], Snapshot(vars)).Some?
      ensures ok ==> OperandVar(i) != null && Denote(tree.args[i], Snapshot(vars)) == Some(OperandVar(i).value)
      ensures forall j :: 0 <= j < |operands| && j != i ==> SameVar(j)
      decreases tree, 0, 1
    {
      assert OperandOK(i);
      match operands[i]
      case Var(v) =>
        if Closed(tree.args[i]) {
          ClosedIsConstant(tree.args[i], map[], Snapshot(vars));
        }
        ok := true;
      case Operation(c) =>
        ok := EvalChild(i, c);
    }

    method EvalChild(i: nat, c: Op) returns (ok: bool)
      requires Valid() && i < |operands| && operands[i] == Operation(c)
      modifies Repr
      ensures Valid() && fresh(Repr - old(Repr))
      ensures operands == old(operands) && result == old(result) && evaluated == old(evaluated)
      ensures ok <==> Denote(tree.args[i], Snapshot(vars)).Some?
      ensures ok ==> OperandVar(i) != null && Denote(tree.args[i], Snapshot(vars)) == Some(OperandVar(i).value)
      ensures forall j :: 0 <= j < |operands| && j != i ==> SameVar(j)
      decreases tree, 0, 0
    {
      hide Closed, Denote;
      assert OperandOK(i);
      forall j | 0 <= j < |operands| {
        OperandVarOwned(j);
      }
      forall j | 0 <= j < |operands|
        ensures OperandOK(j) && (operands[j].Operation? ==> operands[j].op in parts[j])
      {
      }
      var r := c.Eval();
      ok := r != null;
      forall j | 0 <= j < |operands| && j != i
        ensures SameVar(j)
      {
      }
      ghost var parts' := parts[i := c.Repr];
      assert forall j :: 0 <= j < |parts| && j != i ==> parts[j] !! c.Repr;
      Repr := Repr + c.Repr;
      parts := parts';
      assert Shape();
      forall j | 0 <= j < |operands|
        ensures OperandOK(j)
      {
        if j != i {
          assert old(OperandOK(j));
        }
      }
      assert ResultOK();
    }

    twostate predicate SameVar(i: nat)
      requires i < |operands| && operands == old(operands)
      reads this, if operands[i].Operation? then {operands[i].op} else {},
          if OperandVar(i) != null then {OperandVar(i)} else {}
    {
      && OperandVar(i) == old(OperandVar(i))
      && (OperandVar(i) != null ==> OperandVar(i).value == old(OperandVar(i).value))
    }

    /** Evaluates every operand, stopping at the first that fails. */
    method EvalOperands() returns (ok: bool)
      requires Valid()
      modifies Repr
      ensures Valid() && fresh(Repr - old(Repr))
      ensures operands == old(operands) && result == old(result) && evaluated == old(evaluated)
      ensures ok <==> DenoteAll(tree.args, Snapshot(vars)).Some?
      ensures ok ==> OperandsHold()
      decreases tree, 1
    {
      ghost var env := Snapshot(vars);
      for i := 0 to |operands|
        invariant Valid() && fresh(Repr - old(Repr)) && Snapshot(vars) == env
        invariant operands == old(operands) && result == old(result) && evaluated == old(evaluated)
        invariant DenoteAll(tree.args[..i], env).Some?
        invariant forall j :: 0 <= j < i ==>
                    OperandVar(j) != null && OperandVar(j).value == DenoteAll(tree.args[..i], env).value[j]
      {
        assert tree.args[..i + 1][..i] == tree.args[..i];
        label before:
        ok := EvalOperand(i);
        if !ok {
          DenoteAllNeedsEach(tree.args, env, i);
          return;
        }
        forall j | 0 <= j < i + 1
          ensures OperandVar(j) != null && OperandVar(j).value == DenoteAll(tree.args[..i + 1], env).value[j]
        {
          if j < i {
            assert SameVar@before(j);
          }
        }
      }
      assert tree.args[..|operands|] == tree.args;
      ok := true;
    }

    /** Each operand's variable holds the operand's meaning. */
    ghost predicate OperandsHold()
      requires Valid()
      reads this, Repr, lits, vars
    {
      var d := DenoteAll(tree.args, Snapshot(vars));
      && d.Some?
      && forall i :: 0 <= i < |operands| ==> Holds(i, d.value[i])
    }

    ghost predicate Holds(i: nat, n: Num)
      requires Valid() && i < |operands|
      reads this, Repr, lits, vars
    {
      assert OperandOK(i);
      OperandVarOwned(i);
      OperandVar(i) != null && OperandVar(i).value == n
    }

    /** Merges constant operations into constant variables. */
    method FoldOperands()
      requires Valid() && !evaluated && result == null
      requires OperandsHold()
      modifies Repr
      ensures Valid() && Repr == old(Repr)
      ensures !evaluated && result == null
      ensures OperandsHold() && Folded()
    {
      for i := 0 to |operands|
        invariant Valid() && Repr == old(Repr) && |operands| == old(|operands|)
        invariant !evaluated && result == null
        invariant OperandsHold()
        invariant forall j :: 0 <= j < i && operands[j].Operation? ==> !Closed(tree.args[j])
      {
        assert OperandOK(i);
        if operands[i].Operation? {
          var constant := operands[i].op.IsConstant();
          if constant {
            FoldOperand(i);
          }
        }
      }
    }

    method FoldOperand(i: nat)
      requires Valid() && !evaluated && result == null
      requires OperandsHold()
      requires i < |operands| && operands[i].Operation? && Closed(tree.args[i])
      modifies Repr
      ensures Valid() && Repr == old(Repr) && |operands| == old(|operands|)
      ensures operands[i].Var? && forall j :: 0 <= j < |operands| && j != i ==> operands[j] == old(operands[j])
      ensures !evaluated && result == null
      ensures OperandsHold()
    {
      ghost var vals := DenoteAll(tree.args, Snapshot(vars)).value;
      forall j | 0 <= j < |operands|
        ensures OperandOK(j) && (operands[j].Operation? ==> operands[j].op in parts[j])
      {
      }
      DenoteAllNeedsEach(tree.args, Snapshot(vars), i);
      ClosedIsConstant(tree.args[i], map[], Snapshot(vars));
      OperandVarOwned(i);
      var v := operands[i].op.result;
      assert Holds(i, vals[i]);
      operands := operands[i := Var(v)];
      if !v.constant {
        v.constant := true;
      }
      forall j | 0 <= j < |operands|
        ensures OperandOK(j)
        ensures OperandVar(j) == old(OperandVar(j))
      {
        if j != i {
          assert old(OperandOK(j));
        }
      }
      assert ResultOK();
      forall j | 0 <= j < |operands|
        ensures Holds(j, vals[j])
      {
        assert old(Holds(j, vals[j]));
      }
    }

    /** No operand is still an operation that could have been folded. */
    ghost predicate Folded()
      requires tree.Apply? && |operands| == |tree.args|
      reads this
    {
      forall i :: 0 <= i < |operands| && operands[i].Operation? ==> !Closed(tree.args[i])
    }

    lemma ValidIsFolded()
      requires Valid() && evaluated && !kind.Cond?
      ensures Folded()
    {
      forall i | 0 <= i < |operands| && operands[i].Operation?
        ensures !Closed(tree.args[i])
      {
        assert OperandOK(i);
      }
    }

    /** Gives the operation its result variable; unary `+` sets none, which the caller reports. */
    method SetupEvaluation() returns (ok: bool)
      requires Valid() && !evaluated && result == null && !kind.Cond?
      requires OperandsHold() && Folded()
      modifies this
      ensures Valid() && fresh(Repr - old(Repr))
      ensures ok <==> !kind.UnaryPlus?
      ensures ok <==> result != null
      ensures ok ==> evaluated && OperandsHold()
    {
      hide Snapshot;
      ghost var vals := DenoteAll(tree.args, Snapshot(vars)).value;
      forall j | 0 <= j < |operands|
        ensures OperandOK(j) && Holds(j, vals[j])
        ensures operands[j].Operation? ==> operands[j].op in parts[j]
      {
      }
      match kind {
        case UnaryPlus => return false;
        case Group =>
          OperandVarOwned(0);
          assert Holds(0, vals[0]) && OperandOK(0);
          result := OperandVar(0);
          assert tree.args == [tree.args[0]];
        case Strict(_) =>
          result := new ExprVar(ZERO, false);
          Repr := Repr + {result};
      }
      evaluated := true;
      assert Shape();
      forall j | 0 <= j < |operands|
        ensures OperandOK(j)
      {
        assert old(OperandOK(j));
      }
      assert ResultOK();
      forall j | 0 <= j < |operands|
        ensures Holds(j, vals[j])
      {
        assert old(Holds(j, vals[j]));
      }
      ok := true;
    }

    /** Computes the result from the operands' variables. */
    method DoEvaluate()
      requires Valid() && evaluated && result != null && !kind.Cond?
      requires OperandsHold()
      modifies Repr
      ensures Valid() && Repr == old(Repr) && result == old(result) && evaluated
      ensures Denote(tree, Snapshot(vars)) == Some(result.value)
    {
      ghost var d := DenoteAll(tree.args, Snapshot(vars)).value;
      if kind.Strict? {
        var vals: seq<Num> := [];
        for i := 0 to |operands|
          invariant vals == d[..i]
        {
          assert OperandOK(i) && Holds(i, d[i]);
          vals := vals + [OperandVar(i).value];
        }
        assert vals == d;
        forall j | 0 <= j < |operands|
          ensures OperandOK(j) && (operands[j].Operation? ==> operands[j].op in parts[j])
        {
        }
        result.value := kind.fn(vals);
        forall j | 0 <= j < |operands|
          ensures OperandOK(j)
        {
          assert old(OperandOK(j));
        }
        assert old(ResultOK()) && ResultOK();
      } else {
        assert Holds(0, d[0]);
        DenoteAllNeedsEach(tree.args, Snapshot(vars), 0);
      }
    }

    /** The lazy `If`: evaluates tests in turn until one passes, then only the value it selects. */
    method EvalCond() returns (r: ExprVar?)
      requires Valid() && kind.Cond?
      modifies Repr
      ensures Valid() && fresh(Repr - old(Repr))
      ensures r == null <==> Denote(tree, Snapshot(vars)).None?
      ensures r != null ==> r == result && Denote(tree, Snapshot(vars)) == Some(r.value)
      ensures old(result) != null ==> result == old(result)
      decreases tree, 1
    {
      ghost var env := Snapshot(vars);
      if |operands| < 3 || |operands| % 2 != 1 {
        return null;
      }
      MarkEvaluated();
      var chosen := |operands| - 1;
      var i := 0;
      while i < |operands| - 1
        invariant Valid() && fresh(Repr - old(Repr)) && evaluated && result == old(result)
        invariant |operands| == old(|operands|) && Snapshot(vars) == env
        invariant 0 <= i < |operands| && i % 2 == 0 && chosen == |operands| - 1
        invariant DenoteCond(tree.args, env) == DenoteCond(tree.args[i..], env)
      {
        var ok := EvalOperand(i);
        if !ok { return null; }
        if Truth(OperandVar(i).value) {
          chosen := i + 1;
          break;
        }
        assert tree.args[i..][2..] == tree.args[i + 2..];
        i := i + 2;
      }
      assert DenoteCond(tree.args, env) == Denote(tree.args[chosen], env);
      var ok := EvalOperand(chosen);
      if !ok { return null; }
      StoreResult(OperandVar(chosen).value);
      r := result;
    }

    method MarkEvaluated()
      requires Valid() && kind.Cond?
      modifies this
      ensures Valid() && evaluated
      ensures Repr == old(Repr) && operands == old(operands) && result == old(result)
    {
      evaluated := true;
      forall j | 0 <= j < |operands|
        ensures OperandOK(j)
      {
        assert old(OperandOK(j));
      }
      assert old(ResultOK()) && ResultOK();
    }

    /** Clones the selected value into a variable of its own, or copies over the earlier clone. */
    method StoreResult(n: Num)
      requires Valid() && kind.Cond? && evaluated
      modifies Repr
      ensures Valid() && fresh(Repr - old(Repr))
      ensures result != null && result.value == n
      ensures old(result) != null ==> result == old(result)
    {
      forall j | 0 <= j < |operands|
        ensures OperandOK(j) && (operands[j].Operation? ==> operands[j].op in parts[j])
      {
      }
      if result == null {
        result := new ExprVar(n, false);
        Repr := Repr + {result};
      } else {
        result.value := n;
      }
      assert Shape();
      forall j | 0 <= j < |operands|
        ensures OperandOK(j)
      {
        assert old(OperandOK(j));
      }
      assert old(ResultOK()) && ResultOK();
    }
  }

  ghost function Union(parts: seq<set<object>>): set<object> {
    set i, o | 0 <= i < |parts| && o in parts[i] :: o
  }

  /** `x` can be an operand meaning `e`, touching only the objects of `part`. */
  ghost predicate Fits(x: Operand, e: Expr, vars: set<ExprVar>, lits: set<ExprVar>, part: set<object>)
    reads part, lits, vars`constant
  {
    match x
    case Operation(c) =>
      c in part && c.Repr == part && c.tree == e && c.vars == vars && c.lits == lits && c.Valid()
    case Var(v) =>
      || (e == Variable(v) && v in vars)
      || ((v in lits || v in part) && v.constant && Closed(e) && Denote(e, map[]) == Some(v.value))
  }

  /** If one operand has no meaning, neither has the list. */
  lemma {:induction false} DenoteAllNeedsEach(es: seq<Expr>, env: Env, i: nat)
    requires i < |es|
    ensures DenoteAll(es, env).Some? ==>
              Denote(es[i], env) == Some(DenoteAll(es, env).value[i])
  {
    if i < |es| - 1 {
      DenoteAllNeedsEach(es[..|es| - 1], env, i);
    }
  }
}
