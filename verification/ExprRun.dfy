/** From a parsed expression to a heap of operations, and from there to whole runs. */
module Expressions {
  import opened Wrappers
  import opened Folding

  /** `e` with the context's constants, whose values are `consts`, written in as literals. */
  ghost function Freeze(e: Expr, consts: Env): Expr
    decreases e, 1
  {
    match e
    case Literal(_) => e
    case Variable(v) => if v in consts then Literal(consts[v]) else e
    case Apply(kind, args) => Apply(kind, FreezeAll(args, consts))
  }

  ghost function FreezeAll(es: seq<Expr>, consts: Env): (r: seq<Expr>)
    ensures |r| == |es|
    ensures forall i :: 0 <= i < |es| ==> r[i] == Freeze(es[i], consts)
    decreases es, 0
  {
    if es == [] then [] else [Freeze(es[0], consts)] + FreezeAll(es[1..], consts)
  }

  /** The variables of the context that occur in `e`. */
  ghost function Vars(e: Expr): set<ExprVar> {
    match e
    case Literal(_) => {}
    case Variable(v) => {v}
    case Apply(_, args) => set a, v | a in args && v in Vars(a) :: v
  }

  ghost predicate Groups(e: Expr) {
    match e
    case Apply(kind, args) => (kind.Group? ==> |args| == 1) && forall a :: a in args ==> Groups(a)
    case _ => true
  }

  /** Builds the operations of `e` over a context's variables and constants. */
  method Build(e: Expr, ghost vars: set<ExprVar>, ghost lits: set<ExprVar>) returns (op: Op)
    requires e.Apply? && Groups(e)
    requires vars !! lits
    requires (forall v :: v in vars ==> !v.constant) && (forall v :: v in lits ==> v.constant)
    requires Vars(e) <= vars + lits
    ensures op.Valid() && op.vars == vars && op.lits == lits && fresh(op.Repr)
    ensures op.tree == Freeze(e, Snapshot(lits))
    decreases e
  {
    var operands: seq<Operand> := [];
    ghost var parts: seq<set<object>> := [];
    ghost var frozen := FreezeAll(e.args, Snapshot(lits));
    for i := 0 to |e.args|
      invariant |operands| == |parts| == i
      invariant forall j :: 0 <= j < i ==> fresh(parts[j])
      invariant forall j, k :: 0 <= j < k < i ==> parts[j] !! parts[k]
      invariant forall j :: 0 <= j < i ==> Fits(operands[j], frozen[j], vars, lits, parts[j])
    {
      assert e.args[i] in e.args;
      assert Vars(e.args[i]) <= Vars(e);
      var x: Operand;
      ghost var part: set<object> := {};
      match e.args[i] {
        case Literal(n) =>
          var v := new ExprVar(n, true);
          x, part := Var(v), {v};
        case Variable(v) =>
          x := Var(v);
        case Apply(_, _) =>
          var c := Build(e.args[i], vars, lits);
          x, part := Operation(c), c.Repr;
      }
      operands := operands + [x];
      parts := parts + [part];
    }
    op := new Op(e.kind, operands, Freeze(e, Snapshot(lits)), vars, lits, parts);
  }

  /** Writing the constants in changes nothing. */
  lemma {:induction false} FreezeMeaning(e: Expr, consts: Env, env: Env)
    requires env.Keys !! consts.Keys
    ensures Denote(Freeze(e, consts), env) == Denote(e, env + consts)
    decreases e
  {
    if e.Apply? {
      var frozen := FreezeAll(e.args, consts);
      forall i | 0 <= i < |e.args|
        ensures Denote(frozen[i], env) == Denote(e.args[i], env + consts)
      {
        FreezeMeaning(e.args[i], consts, env);
      }
      SameApply(e.kind, frozen, env, e.args, env + consts);
    }
  }

  // ---- Whole runs -------------------------------------------------------------------------

  /** What a user of an expression does: change a variable of the context, or evaluate. */
  datatype Step = Assign(v: ExprVar, n: Num) | Evaluate

  /** The answers a run should give: the meaning of `e` in the environment of the moment. */
  ghost function Answers(e: Expr, env: Env, script: seq<Step>): seq<Option<Num>>
    decreases |script|
  {
    if script == [] then []
    else match script[0]
      case Assign(v, n) => Answers(e, env[v := n], script[1..])
      case Evaluate => [Denote(e, env)] + Answers(e, env, script[1..])
  }

  /** A user's update of a variable leaves the operations intact. */
  method SetFloat(op: Op, v: ExprVar, n: Num)
    requires op.Valid() && v in op.vars
    modifies v`value
    ensures op.Valid()
    ensures Snapshot(op.vars) == old(Snapshot(op.vars))[v := n]
  {
    v.value := n;
  }

  /** What an `If` answers: after tests that fail, the value after the first that passes, or the last
      operand if none does; nothing if a test has no value before. */
  method EvalIf(op: Op, ghost j: nat) returns (r: ExprVar?)
    requires op.Valid() && op.kind.Cond? && |op.tree.args| >= 3 && |op.tree.args| % 2 == 1 && 2 * j < |op.tree.args|
    requires forall i :: 0 <= i < j ==> Fails(Denote(op.tree.args[2 * i], Snapshot(op.vars)))
    modifies op.Repr
    ensures op.Valid() && fresh(op.Repr - old(op.Repr))
    ensures var args, env := op.tree.args, old(Snapshot(op.vars));
            var chosen := if 2 * j + 1 == |args| then 2 * j else 2 * j + 1;
            && (chosen == 2 * j || Passes(Denote(args[2 * j], env)) ==>
                  Denote(args[chosen], env) == if r == null then None else Some(r.value))
            && (chosen != 2 * j && Denote(args[2 * j], env) == None ==> r == null)
  {
    IfChooses(op.tree.args, Snapshot(op.vars), j);
    r := op.Eval();
  }

  /** Folding is invisible: however updates and evaluations are mixed, every evaluation answers
      the plain meaning of the expression at that moment. */
  method Run(op: Op, script: seq<Step>) returns (answers: seq<Option<Num>>)
    requires op.Valid()
    requires forall s :: s in script && s.Assign? ==> s.v in op.vars
    modifies op.Repr, op.vars`value
    ensures op.Valid() && fresh(op.Repr - old(op.Repr))
    ensures answers == Answers(op.tree, old(Snapshot(op.vars)), script)
  {
    answers := [];
    ghost var env := Snapshot(op.vars);
    for i := 0 to |script|
      invariant op.Valid() && fresh(op.Repr - old(op.Repr))
      invariant answers + Answers(op.tree, Snapshot(op.vars), script[i..]) == Answers(op.tree, env, script)
    {
      ghost var now := Snapshot(op.vars);
      assert script[i..][1..] == script[i + 1..];
      match script[i] {
        case Assign(v, n) =>
          SetFloat(op, v, n);
        case Evaluate =>
          var r := op.Eval();
          var answer := if r == null then None else Some(r.value);
          assert Snapshot(op.vars) == now;
          assert answer == Denote(op.tree, now);
          ghost var rest := Answers(op.tree, now, script[i + 1..]);
          assert answers + ([answer] + rest) == (answers + [answer]) + rest;
          answers := answers + [answer];
      }
    }
  }

  /** A freshly built expression answers the meaning of the expression as written. */
  method BuildAndRun(e: Expr, ghost vars: set<ExprVar>, ghost lits: set<ExprVar>, script: seq<Step>)
    returns (answers: seq<Option<Num>>)
    requires e.Apply? && Groups(e)
    requires vars !! lits
    requires (forall v :: v in vars ==> !v.constant) && (forall v :: v in lits ==> v.constant)
    requires Vars(e) <= vars + lits
    requires forall s :: s in script && s.Assign? ==> s.v in vars
    modifies vars`value
    ensures answers == Answers(e, old(Snapshot(vars) + Snapshot(lits)), script)
    ensures forall v :: v in vars ==> !v.constant
  {
    var op := Build(e, vars, lits);
    answers := Run(op, script);
    FreezeAnswers(e, old(Snapshot(lits)), old(Snapshot(vars)), script);
  }

  lemma {:induction false} FreezeAnswers(e: Expr, consts: Env, env: Env, script: seq<Step>)
    requires env.Keys !! consts.Keys
    requires forall s :: s in script && s.Assign? ==> s.v in env
    ensures Answers(Freeze(e, consts), env, script) == Answers(e, env + consts, script)
    decreases |script|
  {
    if script != [] {
      match script[0]
      case Assign(v, n) =>
        FreezeAnswers(e, consts, env[v := n], script[1..]);
        assert env[v := n] + consts == (env + consts)[v := n];
      case Evaluate =>
        FreezeMeaning(e, consts, env);
        FreezeAnswers(e, consts, env, script[1..]);
    }
  }
}
