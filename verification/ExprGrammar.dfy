/** The language of the expression parser, and the proof that the parser realises it. */
module Grammar {
  import opened Wrappers
  import opened Folding
  import opened Parsing

  /** unit  ::= atom | unaryop unit | '(' chain ')' | function '(' [args] ')' */
  datatype Unit =
    | AtomUnit(name: string)
    | PrefixUnit(op: string, unit: Unit)
    | GroupUnit(chain: Chain)
    | CallUnit(name: string, arity: Option<nat>, args: Args)

  /** chain ::= unit | chain op unit: every operator has the same precedence. */
  datatype Chain =
    | One(unit: Unit)
    | Then(init: Chain, op: string, unit: Unit)

  /** args  ::= chain | chain ',' args, or nothing between the parentheses. */
  datatype Args = NoArgs | Last(chain: Chain) | More(chain: Chain, rest: Args)

  // ---- Phrases, the tokens they are written with, the trees they stand for -----------------

  predicate UnitOK(u: Unit) {
    match u
    case AtomUnit(_) => true
    case PrefixUnit(_, v) => UnitOK(v)
    case GroupUnit(c) => ChainOK(c)
    case CallUnit(_, arity, args) => ArgsOK(args) && (arity.Some? ==> Count(args) == arity.value)
  }

  predicate ChainOK(c: Chain) {
    match c
    case One(u) => UnitOK(u)
    case Then(d, _, u) => ChainOK(d) && UnitOK(u)
  }

  predicate ArgsOK(a: Args) {
    match a
    case NoArgs => true
    case Last(c) => ChainOK(c)
    case More(c, rest) => ChainOK(c) && ArgsOK(rest) && !rest.NoArgs?
  }

  function Count(a: Args): nat {
    match a
    case NoArgs => 0
    case Last(_) => 1
    case More(_, rest) => 1 + Count(rest)
  }

  function UnitTokens(u: Unit): (r: seq<Token>)
    ensures |r| > 0
  {
    match u
    case AtomUnit(name) => [Atom(name)]
    case PrefixUnit(op, v) => [UnaryOperator(op)] + UnitTokens(v)
    case GroupUnit(c) => [OpenGroup] + ChainTokens(c) + [CloseGroup]
    case CallUnit(name, arity, args) => [Function(name, arity), OpenGroup] + ArgsTokens(args) + [CloseGroup]
  }

  function ChainTokens(c: Chain): (r: seq<Token>)
    ensures |r| > 0 && !r[0].CloseGroup?
  {
    match c
    case One(u) => UnitTokens(u)
    case Then(d, op, u) => ChainTokens(d) + [Operator(op)] + UnitTokens(u)
  }

  function ArgsTokens(a: Args): seq<Token> {
    match a
    case NoArgs => []
    case Last(c) => ChainTokens(c)
    case More(c, rest) => ChainTokens(c) + [Separator] + ArgsTokens(rest)
  }

  function UnitTree(u: Unit): Tree {
    match u
    case AtomUnit(name) => Leaf(name)
    case PrefixUnit(op, v) => Node(Unary(op), [UnitTree(v)])
    case GroupUnit(c) => Node(GroupOf, [ChainTree(c)])
    case CallUnit(name, arity, args) => Node(Call(name, arity), ArgTrees(args))
  }

  /** Left-nested. */
  function ChainTree(c: Chain): Tree {
    match c
    case One(u) => UnitTree(u)
    case Then(d, op, u) => Node(Binary(op), [ChainTree(d), UnitTree(u)])
  }

  function ArgTrees(a: Args): (r: seq<Tree>)
    ensures |r| == Count(a)
  {
    match a
    case NoArgs => []
    case Last(c) => [ChainTree(c)]
    case More(c, rest) => [ChainTree(c)] + ArgTrees(rest)
  }

  // ---- Every phrase parses ----------------------------------------------------------------

  /** `ys` is what `toks` holds from position `i`. */
  predicate At(toks: seq<Token>, i: nat, ys: seq<Token>) {
    i + |ys| <= |toks| && toks[i..i + |ys|] == ys
  }

  lemma AtSplit(toks: seq<Token>, i: nat, xs: seq<Token>, ys: seq<Token>)
    requires At(toks, i, xs + ys)
    ensures At(toks, i, xs) && At(toks, i + |xs|, ys)
  {
    assert toks[i..i + |xs|] == (xs + ys)[..|xs|];
    assert toks[i + |xs|..i + |xs| + |ys|] == (xs + ys)[|xs|..];
  }

  lemma PrefixSplit(op: string, v: Unit, toks: seq<Token>, i: nat)
    requires At(toks, i, UnitTokens(PrefixUnit(op, v)))
    ensures i < |toks| && toks[i] == UnaryOperator(op) && At(toks, i + 1, UnitTokens(v))
  {
    AtSplit(toks, i, [UnaryOperator(op)], UnitTokens(v));
    assert toks[i] == toks[i..i + 1][0];
  }

  lemma GroupSplit(c: Chain, toks: seq<Token>, i: nat)
    requires At(toks, i, UnitTokens(GroupUnit(c)))
    ensures i + |ChainTokens(c)| + 1 < |toks| && toks[i] == OpenGroup
    ensures toks[i + |ChainTokens(c)| + 1] == CloseGroup && At(toks, i + 1, ChainTokens(c))
  {
    var body := ChainTokens(c);
    AtSplit(toks, i, [OpenGroup] + body, [CloseGroup]);
    AtSplit(toks, i, [OpenGroup], body);
    assert toks[i] == toks[i..i + 1][0];
    assert toks[i + 1 + |body|] == toks[i + 1 + |body|..i + 2 + |body|][0];
  }

  lemma CallSplit(name: string, arity: Option<nat>, args: Args, toks: seq<Token>, i: nat)
    requires At(toks, i, UnitTokens(CallUnit(name, arity, args)))
    ensures i + |ArgsTokens(args)| + 2 < |toks| && toks[i] == Function(name, arity) && toks[i + 1] == OpenGroup
    ensures At(toks, i + 2, ArgsTokens(args) + [CloseGroup])
  {
    var head, tail := [Function(name, arity), OpenGroup], ArgsTokens(args) + [CloseGroup];
    assert UnitTokens(CallUnit(name, arity, args)) == head + tail;
    AtSplit(toks, i, head, tail);
    assert toks[i] == toks[i..i + 2][0] && toks[i + 1] == toks[i..i + 2][1];
  }

  lemma ThenSplit(d: Chain, op: string, u: Unit, toks: seq<Token>, i: nat)
    requires At(toks, i, ChainTokens(Then(d, op, u)))
    ensures At(toks, i, ChainTokens(d))
    ensures i + |ChainTokens(d)| < |toks| && toks[i + |ChainTokens(d)|] == Operator(op)
    ensures At(toks, i + |ChainTokens(d)| + 1, UnitTokens(u))
  {
    var head := ChainTokens(d);
    AtSplit(toks, i, head + [Operator(op)], UnitTokens(u));
    AtSplit(toks, i, head, [Operator(op)]);
    assert toks[i + |head|] == toks[i + |head|..i + |head| + 1][0];
  }

  lemma MoreSplit(c: Chain, rest: Args, toks: seq<Token>, i: nat)
    requires At(toks, i, ArgsTokens(More(c, rest)) + [CloseGroup])
    ensures At(toks, i, ChainTokens(c))
    ensures i + |ChainTokens(c)| < |toks| && toks[i + |ChainTokens(c)|] == Separator
    ensures At(toks, i + |ChainTokens(c)| + 1, ArgsTokens(rest) + [CloseGroup])
  {
    var head, tail := ChainTokens(c), ArgsTokens(rest) + [CloseGroup];
    assert ArgsTokens(More(c, rest)) + [CloseGroup] == head + [Separator] + tail;
    AtSplit(toks, i, head + [Separator], tail);
    AtSplit(toks, i, head, [Separator]);
    assert toks[i + |head|] == toks[i + |head|..i + |head| + 1][0];
  }

  lemma LastSplit(c: Chain, toks: seq<Token>, i: nat)
    requires At(toks, i, ChainTokens(c) + [CloseGroup])
    ensures At(toks, i, ChainTokens(c))
    ensures i + |ChainTokens(c)| < |toks| && toks[i + |ChainTokens(c)|] == CloseGroup
  {
    var n := i + |ChainTokens(c)|;
    AtSplit(toks, i, ChainTokens(c), [CloseGroup]);
    assert toks[n] == toks[n..n + 1][0];
  }

  lemma {:induction false} UnitParses(u: Unit, toks: seq<Token>, i: nat)
    requires UnitOK(u) && At(toks, i, UnitTokens(u))
    ensures ParseUnit(toks, i) == Parsed(UnitTree(u), i + |UnitTokens(u)|)
    decreases u
  {
    match u
    case AtomUnit(_) =>
      assert toks[i] == toks[i..i + 1][0];
    case PrefixUnit(op, v) =>
      PrefixSplit(op, v, toks, i);
      UnitParses(v, toks, i + 1);
    case GroupUnit(c) =>
      GroupSplit(c, toks, i);
      ChainStops(c, toks, i + 1);
    case CallUnit(name, arity, args) =>
      CallParses(name, arity, args, toks, i);
  }

  lemma {:induction false} CallParses(name: string, arity: Option<nat>, args: Args, toks: seq<Token>, i: nat)
    requires UnitOK(CallUnit(name, arity, args)) && At(toks, i, UnitTokens(CallUnit(name, arity, args)))
    ensures ParseUnit(toks, i) == Parsed(Node(Call(name, arity), ArgTrees(args)), i + |ArgsTokens(args)| + 3)
    decreases args, 1
  {
    CallSplit(name, arity, args, toks, i);
    match args
    case NoArgs =>
      assert toks[i + 2] == toks[i + 2..i + 3][0];
    case _ =>
      FirstArg(args, toks, i + 2);
      ArgsParse(args, toks, i + 2, arity);
  }

  lemma FirstArg(a: Args, toks: seq<Token>, i: nat)
    requires a != NoArgs && At(toks, i, ArgsTokens(a) + [CloseGroup])
    ensures !toks[i].CloseGroup?
  {
    if a.Last? {
      LastSplit(a.chain, toks, i);
    } else {
      MoreSplit(a.chain, a.rest, toks, i);
    }
    var body := ChainTokens(a.chain);
    assert toks[i] == toks[i..i + |body|][0] == body[0];
  }

  /** A chain is read as far as it goes, whatever follows. */
  lemma {:induction false} ChainParses(c: Chain, toks: seq<Token>, i: nat)
    requires ChainOK(c) && At(toks, i, ChainTokens(c))
    ensures ParseChain(toks, i) == ParseRest(toks, ChainTree(c), i + |ChainTokens(c)|)
    decreases c, 0
  {
    hide Parsing.ParseUnit, Parsing.ParseChain, Parsing.ParseRest, Parsing.ParseArgs;
    match c
    case One(u) =>
      UnitParses(u, toks, i);
      FirstUnit(toks, i);
    case Then(d, op, u) =>
      ThenSplit(d, op, u, toks, i);
      ChainParses(d, toks, i);
      UnitParses(u, toks, i + |ChainTokens(d)| + 1);
      ThenParses(d, op, u, toks, i, i + |ChainTokens(d)|);
  }

  lemma FirstUnit(toks: seq<Token>, i: nat)
    ensures ParseUnit(toks, i).Parsed? ==>
              ParseChain(toks, i) == ParseRest(toks, ParseUnit(toks, i).value, ParseUnit(toks, i).next)
  {
  }

  lemma ThenParses(d: Chain, op: string, u: Unit, toks: seq<Token>, i: nat, j: nat)
    requires j == i + |ChainTokens(d)| && j < |toks| && toks[j] == Operator(op)
    requires ParseChain(toks, i) == ParseRest(toks, ChainTree(d), j)
    requires ParseUnit(toks, j + 1) == Parsed(UnitTree(u), j + 1 + |UnitTokens(u)|)
    ensures var c := Then(d, op, u);
            ParseChain(toks, i) == ParseRest(toks, ChainTree(c), i + |ChainTokens(c)|)
  {
    hide Parsing.ParseUnit, Parsing.ParseChain, Parsing.ParseRest, Parsing.ParseArgs;
    RestStep(toks, ChainTree(d), j);
  }

  lemma RestStep(toks: seq<Token>, left: Tree, j: nat)
    requires j < |toks| && toks[j].Operator?
    ensures var u := ParseUnit(toks, j + 1);
            u.Parsed? ==> ParseRest(toks, left, j) == ParseRest(toks, Node(Binary(toks[j].op), [left, u.value]), u.next)
  {
  }

  lemma ArgsStep(toks: seq<Token>, i: nat, arity: Option<nat>)
    requires arity != Some(0) && arity != Some(1)
    ensures var c := ParseChain(toks, i);
            c.Parsed? && c.next < |toks| && toks[c.next].Separator? ==>
              var a := ParseArgs(toks, c.next + 1, if arity.None? then None else Some(arity.value - 1));
              a.Parsed? ==> ParseArgs(toks, i, arity) == Parsed([c.value] + a.value, a.next)
  {
  }

  /** A chain followed by anything but an operator is read whole. */
  lemma ChainStops(c: Chain, toks: seq<Token>, i: nat)
    requires ChainOK(c) && At(toks, i, ChainTokens(c))
    requires i + |ChainTokens(c)| < |toks| ==> !toks[i + |ChainTokens(c)|].Operator?
    ensures ParseChain(toks, i) == Parsed(ChainTree(c), i + |ChainTokens(c)|)
    decreases c, 1
  {
    ChainParses(c, toks, i);
  }

  lemma {:induction false} ArgsParse(a: Args, toks: seq<Token>, i: nat, arity: Option<nat>)
    requires ArgsOK(a) && a != NoArgs && (arity.Some? ==> Count(a) == arity.value)
    requires At(toks, i, ArgsTokens(a) + [CloseGroup])
    ensures ParseArgs(toks, i, arity) == Parsed(ArgTrees(a), i + |ArgsTokens(a)| + 1)
    decreases a, 0
  {
    hide Parsing.ParseUnit, Parsing.ParseChain, Parsing.ParseRest, Parsing.ParseArgs;
    match a
    case Last(c) =>
      LastSplit(c, toks, i);
      ChainStops(c, toks, i);
      LastArg(toks, i, arity);
    case More(c, rest) =>
      MoreSplit(c, rest, toks, i);
      ChainStops(c, toks, i);
      ArgsParse(rest, toks, i + |ChainTokens(c)| + 1, if arity.None? then None else Some(arity.value - 1));
      MoreParses(c, rest, toks, i, i + |ChainTokens(c)|, arity);
  }

  lemma LastArg(toks: seq<Token>, i: nat, arity: Option<nat>)
    requires arity.None? || arity.value == 1
    ensures var c := ParseChain(toks, i);
            c.Parsed? && c.next < |toks| && toks[c.next].CloseGroup? ==>
              ParseArgs(toks, i, arity) == Parsed([c.value], c.next + 1)
  {
  }

  lemma MoreParses(c: Chain, rest: Args, toks: seq<Token>, i: nat, j: nat, arity: Option<nat>)
    requires arity != Some(0) && arity != Some(1)
    requires j == i + |ChainTokens(c)| && j < |toks| && toks[j].Separator?
    requires ParseChain(toks, i) == Parsed(ChainTree(c), j)
    requires ParseArgs(toks, j + 1, if arity.None? then None else Some(arity.value - 1))
             == Parsed(ArgTrees(rest), j + 1 + |ArgsTokens(rest)| + 1)
    ensures var a := More(c, rest);
            ParseArgs(toks, i, arity) == Parsed(ArgTrees(a), i + |ArgsTokens(a)| + 1)
  {
    hide Parsing.ParseUnit, Parsing.ParseChain, Parsing.ParseRest, Parsing.ParseArgs;
    ArgsStep(toks, i, arity);
  }

  // ---- Whatever parses is a phrase --------------------------------------------------------

  lemma Join(toks: seq<Token>, i: nat, j: nat, k: nat)
    requires i <= j < k <= |toks|
    ensures toks[i..k] == toks[i..j] + [toks[j]] + toks[j + 1..k]
  {
  }

  lemma {:induction false} UnitSound(toks: seq<Token>, i: nat) returns (u: Unit)
    requires ParseUnit(toks, i).Parsed?
    ensures UnitOK(u) && UnitTree(u) == ParseUnit(toks, i).value
    ensures UnitTokens(u) == toks[i..ParseUnit(toks, i).next]
    decreases |toks| - i, 0, 1
  {
    match toks[i]
    case Atom(name) =>
      u := AtomUnit(name);
    case UnaryOperator(op) =>
      var v := UnitSound(toks, i + 1);
      u := PrefixSound(toks, i, v, ParseUnit(toks, i + 1).next);
    case OpenGroup =>
      var c := ChainSound(toks, i + 1);
      u := GroupSound(toks, i, c, ParseChain(toks, i + 1).next);
    case Function(_, _) =>
      u := CallSound(toks, i);
  }

  lemma PrefixSound(toks: seq<Token>, i: nat, v: Unit, n: nat) returns (u: Unit)
    requires i < n <= |toks| && toks[i].UnaryOperator? && UnitTokens(v) == toks[i + 1..n]
    ensures u == PrefixUnit(toks[i].op, v) && UnitTokens(u) == toks[i..n]
  {
    u := PrefixUnit(toks[i].op, v);
    Join(toks, i, i, n);
  }

  lemma GroupSound(toks: seq<Token>, i: nat, c: Chain, n: nat) returns (u: Unit)
    requires i < n < |toks| && toks[i] == OpenGroup && toks[n] == CloseGroup && ChainTokens(c) == toks[i + 1..n]
    ensures u == GroupUnit(c) && UnitTokens(u) == toks[i..n + 1]
  {
    u := GroupUnit(c);
    Join(toks, i, i, n);
    Join(toks, i, n, n + 1);
  }

  lemma {:induction false} CallSound(toks: seq<Token>, i: nat) returns (u: Unit)
    requires i < |toks| && toks[i].Function? && ParseUnit(toks, i).Parsed?
    ensures UnitOK(u) && UnitTree(u) == ParseUnit(toks, i).value
    ensures UnitTokens(u) == toks[i..ParseUnit(toks, i).next]
    decreases |toks| - i, 0, 0
  {
    var n, name, arity := ParseUnit(toks, i).next, toks[i].name, toks[i].arity;
    var head := [Function(name, arity), OpenGroup];
    assert toks[i..i + 2] == head;
    if arity == Some(0) || (arity.None? && toks[i + 2].CloseGroup?) {
      u := CallUnit(name, arity, NoArgs);
      assert UnitTokens(u) == head + [CloseGroup] == toks[i..i + 3];
    } else {
      var a := ArgsSound(toks, i + 2, arity);
      u := CallUnit(name, arity, a);
      assert UnitTokens(u) == head + (ArgsTokens(a) + [CloseGroup]);
      assert toks[i..n] == toks[i..i + 2] + toks[i + 2..n];
    }
  }

  lemma {:induction false} ChainSound(toks: seq<Token>, i: nat) returns (c: Chain)
    requires ParseChain(toks, i).Parsed?
    ensures ChainOK(c) && ChainTree(c) == ParseChain(toks, i).value
    ensures ChainTokens(c) == toks[i..ParseChain(toks, i).next]
    ensures ParseChain(toks, i).next < |toks| ==> !toks[ParseChain(toks, i).next].Operator?
    decreases |toks| - i, 1
  {
    var u := UnitSound(toks, i);
    c := RestSound(toks, i, One(u), ParseUnit(toks, i).next);
  }

  lemma {:induction false} RestSound(toks: seq<Token>, start: nat, d: Chain, i: nat) returns (c: Chain)
    requires start < i <= |toks| && ChainOK(d) && ChainTokens(d) == toks[start..i]
    requires ParseRest(toks, ChainTree(d), i).Parsed?
    ensures var r := ParseRest(toks, ChainTree(d), i);
            && ChainOK(c) && ChainTree(c) == r.value && ChainTokens(c) == toks[start..r.next]
            && (r.next < |toks| ==> !toks[r.next].Operator?)
    decreases |toks| - i, 1
  {
    if i < |toks| && toks[i].Operator? {
      var u := UnitSound(toks, i + 1);
      var j := ParseUnit(toks, i + 1).next;
      Join(toks, start, i, j);
      c := RestSound(toks, start, Then(d, toks[i].op, u), j);
    } else {
      c := d;
    }
  }

  lemma {:induction false} ArgsSound(toks: seq<Token>, i: nat, arity: Option<nat>) returns (a: Args)
    requires arity != Some(0) && ParseArgs(toks, i, arity).Parsed?
    ensures var r := ParseArgs(toks, i, arity);
            && ArgsOK(a) && a != NoArgs && ArgTrees(a) == r.value
            && ArgsTokens(a) + [CloseGroup] == toks[i..r.next]
            && (arity.Some? ==> Count(a) == arity.value)
    decreases |toks| - i, 2
  {
    var c := ChainSound(toks, i);
    var j, n := ParseChain(toks, i).next, ParseArgs(toks, i, arity).next;
    Join(toks, i, j, n);
    if toks[j].CloseGroup? {
      a := Last(c);
    } else {
      var rest := ArgsSound(toks, j + 1, if arity.None? then None else Some(arity.value - 1));
      a := MoreSound(toks, i, j, n, c, rest);
    }
  }

  lemma MoreSound(toks: seq<Token>, i: nat, j: nat, n: nat, c: Chain, rest: Args) returns (a: Args)
    requires i <= j < n <= |toks| && toks[j] == Separator
    requires ChainTokens(c) == toks[i..j] && ArgsTokens(rest) + [CloseGroup] == toks[j + 1..n]
    ensures a == More(c, rest) && ArgsTokens(a) + [CloseGroup] == toks[i..n]
  {
    a := More(c, rest);
    Join(toks, i, j, n);
    assert ArgsTokens(a) + [CloseGroup] == ChainTokens(c) + [Separator] + (ArgsTokens(rest) + [CloseGroup]);
  }

  // ---- The language ------------------------------------------------------------------------

  /** `c` is a longest phrase at the front of `toks`. */
  ghost predicate Begins(toks: seq<Token>, c: Chain) {
    && ChainOK(c)
    && At(toks, 0, ChainTokens(c))
    && (|ChainTokens(c)| < |toks| ==> !toks[|ChainTokens(c)|].Operator?)
  }

  /** The parser accepts exactly the token lists that begin with a phrase, consumes exactly that
      phrase and builds its left-nested tree. What follows the phrase is not looked at. */
  lemma ParserRealisesGrammar(toks: seq<Token>, t: Tree, n: nat)
    ensures ParseChain(toks, 0) == Parsed(t, n)
            <==> exists c :: Begins(toks, c) && ChainTree(c) == t && |ChainTokens(c)| == n
  {
    if ParseChain(toks, 0) == Parsed(t, n) {
      var c := ChainSound(toks, 0);
      assert Begins(toks, c);
    }
    if c :| Begins(toks, c) && ChainTree(c) == t && |ChainTokens(c)| == n {
      ChainStops(c, toks, 0);
    }
  }

  /** One token list, one tree: the grammar is unambiguous. */
  lemma Unambiguous(c: Chain, d: Chain)
    requires ChainOK(c) && ChainOK(d) && ChainTokens(c) == ChainTokens(d)
    ensures ChainTree(c) == ChainTree(d)
  {
    ChainStops(c, ChainTokens(c), 0);
    ChainStops(d, ChainTokens(c), 0);
  }

  // ---- Printing with every operation parenthesised ----------------------------------------

  ghost predicate TreeOK(t: Tree) {
    match t
    case Leaf(_) => true
    case Node(h, args) =>
      && (Capacity(h).Some? ==> |args| == Capacity(h).value)
      && forall a :: a in args ==> TreeOK(a)
  }

  function Print(t: Tree): Unit
    requires TreeOK(t)
    decreases t, 1
  {
    match t
    case Leaf(name) => AtomUnit(name)
    case Node(h, args) =>
      match h
      case Unary(op) => PrefixUnit(op, Print(args[0]))
      case Binary(op) => GroupUnit(Then(One(Print(args[0])), op, Print(args[1])))
      case GroupOf => GroupUnit(One(Print(args[0])))
      case Call(name, arity) => CallUnit(name, arity, PrintArgs(args))
  }

  function PrintArgs(ts: seq<Tree>): Args
    requires forall t :: t in ts ==> TreeOK(t)
    decreases ts, 0
  {
    if |ts| == 0 then NoArgs
    else if |ts| == 1 then Last(One(Print(ts[0])))
    else More(One(Print(ts[0])), PrintArgs(ts[1..]))
  }

  /** The tree without its group nodes. */
  function Strip(t: Tree): Tree
    decreases t, 1
  {
    match t
    case Leaf(_) => t
    case Node(h, args) =>
      if h.GroupOf? && |args| == 1 then Strip(args[0]) else Node(h, StripAll(args))
  }

  function StripAll(ts: seq<Tree>): (r: seq<Tree>)
    ensures |r| == |ts|
    decreases ts, 0
  {
    if ts == [] then [] else [Strip(ts[0])] + StripAll(ts[1..])
  }

  lemma {:induction false} PrintOK(t: Tree)
    requires TreeOK(t)
    ensures UnitOK(Print(t)) && Strip(UnitTree(Print(t))) == Strip(t)
    decreases t, 1
  {
    match t
    case Leaf(_) =>
    case Node(h, args) =>
      match h
      case Unary(_) =>
        PrintOK(args[0]);
        StripOne(args);
        StripOne([UnitTree(Print(args[0]))]);
      case Binary(op) =>
        var pair := [UnitTree(Print(args[0])), UnitTree(Print(args[1]))];
        assert ChainTree(One(Print(args[0]))) == pair[0];
        assert ChainTree(Then(One(Print(args[0])), op, Print(args[1]))) == Node(Binary(op), pair);
        assert UnitTree(Print(t)) == Node(GroupOf, [Node(Binary(op), pair)]);
        assert Strip(UnitTree(Print(t))) == Strip(Node(Binary(op), pair));
        PrintOK(args[0]);
        PrintOK(args[1]);
        StripTwo(args);
        StripTwo(pair);
      case GroupOf =>
        PrintOK(args[0]);
      case Call(_, _) =>
        PrintArgsOK(args);
  }

  lemma StripOne(ts: seq<Tree>)
    requires |ts| == 1
    ensures StripAll(ts) == [Strip(ts[0])]
  {
    assert StripAll(ts[1..]) == [];
  }

  lemma StripTwo(ts: seq<Tree>)
    requires |ts| == 2
    ensures StripAll(ts) == [Strip(ts[0]), Strip(ts[1])]
  {
    StripOne(ts[1..]);
  }

  lemma {:induction false} PrintArgsOK(ts: seq<Tree>)
    requires forall t :: t in ts ==> TreeOK(t)
    ensures var a := PrintArgs(ts);
            && ArgsOK(a) && Count(a) == |ts| && (a.NoArgs? <==> ts == [])
            && StripAll(ArgTrees(a)) == StripAll(ts)
    decreases ts, 0
  {
    if |ts| == 1 {
      PrintOK(ts[0]);
      StripOne(ts);
      StripOne([UnitTree(Print(ts[0]))]);
    } else if |ts| > 1 {
      PrintOK(ts[0]);
      PrintArgsOK(ts[1..]);
    }
  }

  /** Printing a tree and parsing it back gives the tree, up to groups, and leaves no token. */
  lemma PrintThenParse(t: Tree)
    requires TreeOK(t)
    ensures var r := ParseChain(UnitTokens(Print(t)), 0);
            r.Parsed? && r.next == |UnitTokens(Print(t))| && Strip(r.value) == Strip(t)
  {
    PrintOK(t);
    ChainStops(One(Print(t)), UnitTokens(Print(t)), 0);
  }

  // ---- Groups mean nothing ----------------------------------------------------------------

  /** What names stand for: atoms are literals and variables, heads are operations. */
  datatype Binding = Binding(atom: string -> Expr, kind: Head -> Kind)

  function Resolve(t: Tree, b: Binding): Expr
    decreases t, 1
  {
    match t
    case Leaf(name) => b.atom(name)
    case Node(h, args) => Apply(if h.GroupOf? then Group else b.kind(h), ResolveAll(args, b))
  }

  function ResolveAll(ts: seq<Tree>, b: Binding): (r: seq<Expr>)
    ensures |r| == |ts|
    ensures forall i :: 0 <= i < |ts| ==> r[i] == Resolve(ts[i], b)
    decreases ts, 0
  {
    if ts == [] then [] else [Resolve(ts[0], b)] + ResolveAll(ts[1..], b)
  }

  /** Group nodes do not change what an expression evaluates to. */
  lemma {:induction false} GroupsMeanNothing(t: Tree, b: Binding, env: Env)
    requires TreeOK(t)
    ensures Denote(Resolve(t, b), env) == Denote(Resolve(Strip(t), b), env)
    decreases t, 1
  {
    match t
    case Leaf(_) =>
    case Node(h, args) =>
      if h.GroupOf? {
        GroupsMeanNothing(args[0], b, env);
      } else {
        GroupsMeanNothingAll(args, b, env);
        SameApply(b.kind(h), ResolveAll(args, b), env, ResolveAll(StripAll(args), b), env);
      }
  }

  lemma {:induction false} GroupsMeanNothingAll(ts: seq<Tree>, b: Binding, env: Env)
    requires forall t :: t in ts ==> TreeOK(t)
    ensures SameMeaning(ResolveAll(ts, b), env, ResolveAll(StripAll(ts), b), env)
    decreases ts, 0
  {
    if ts != [] {
      GroupsMeanNothing(ts[0], b, env);
      GroupsMeanNothingAll(ts[1..], b, env);
    }
  }
}
