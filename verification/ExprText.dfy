/** Expressions from text to value: tokens, parsed tree, operations and their evaluation in one. */
module TextEvaluation {
  import opened Wrappers
  import opened Folding
  import opened Lexing
  import opened Expressions
  import opened EnumFlags
  import P = Parsing
  import G = Grammar

  // ---- Parsed trees can be built -------------------------------------------------------------------

  /** Groups have one operand. */
  ghost predicate GroupsOne(t: P.Tree) {
    t.Node? ==> (t.head.GroupOf? ==> |t.args| == 1) && forall a :: a in t.args ==> GroupsOne(a)
  }

  lemma {:induction false} UnitGroups(u: G.Unit)
    ensures GroupsOne(G.UnitTree(u))
    decreases u
  {
    match u {
      case AtomUnit(_) =>
      case PrefixUnit(_, v) => UnitGroups(v);
      case GroupUnit(c) => ChainGroups(c);
      case CallUnit(_, _, args) => ArgsGroups(args);
    }
  }

  lemma {:induction false} ChainGroups(c: G.Chain)
    ensures GroupsOne(G.ChainTree(c))
    decreases c
  {
    match c {
      case One(u) => UnitGroups(u);
      case Then(d, _, u) =>
        ChainGroups(d);
        UnitGroups(u);
    }
  }

  lemma {:induction false} ArgsGroups(args: G.Args)
    ensures forall t :: t in G.ArgTrees(args) ==> GroupsOne(t)
    decreases args
  {
    match args {
      case NoArgs =>
      case Last(c) => ChainGroups(c);
      case More(c, rest) =>
        ChainGroups(c);
        ArgsGroups(rest);
    }
  }

  /** Atoms stand for literals and for variables and constants of the context, and only groups are
      groups. */
  ghost predicate MachineOK(m: Machine, names: set<ExprVar>) {
    && (forall t :: m.leaf(t).Literal? || (m.leaf(t).Variable? && m.leaf(t).v in names))
    && (forall h: P.Head :: !m.kind(h).Group?)
  }

  lemma {:induction false} ResolvedOK(t: P.Tree, m: Machine, ts: seq<Token>, names: set<ExprVar>)
    requires GroupsOne(t) && MachineOK(m, names)
    ensures Groups(G.Resolve(t, Bound(m, ts))) && Vars(G.Resolve(t, Bound(m, ts))) <= names
    decreases t
  {
    var b := Bound(m, ts);
    match t {
      case Leaf(name) => LeafOK(name, m, ts, names);
      case Node(h, args) =>
        var es := G.ResolveAll(args, b);
        forall i | 0 <= i < |args| ensures Groups(es[i]) && Vars(es[i]) <= names {
          ResolvedOK(args[i], m, ts, names);
        }
    }
  }

  lemma LeafOK(name: string, m: Machine, ts: seq<Token>, names: set<ExprVar>)
    requires MachineOK(m, names)
    ensures var e := Bound(m, ts).atom(name); Groups(e) && Vars(e) <= names
  {
    var e := Bound(m, ts).atom(name);
    assert e.Literal? || (e.Variable? && e.v in names);
  }

  lemma ParsedOK(m: Machine, ts: seq<Token>, names: set<ExprVar>)
    requires MachineOK(m, names) && P.ParseChain(AllForParser(ts), 0).Parsed?
    ensures var t := P.Node(P.GroupOf, [P.ParseChain(AllForParser(ts), 0).value]);
            Groups(G.Resolve(t, Bound(m, ts))) && Vars(G.Resolve(t, Bound(m, ts))) <= names
  {
    var c := G.ChainSound(AllForParser(ts), 0);
    ChainGroups(c);
    hide P.ParseChain, G.ChainTree, G.ChainOK, G.ChainTokens, AllForParser, MachineOK, Bound;
    ResolvedOK(P.Node(P.GroupOf, [P.ParseChain(AllForParser(ts), 0).value]), m, ts, names);
  }

  // ---- Evaluation --------------------------------------------------------------------------------------

  /** The value of a text, if it can be read and evaluated. */
  ghost function Meaning(m: Machine, text: string, env: Env): Option<Num> {
    var e := Parse(m, text);
    if e.None? then None else Denote(e.value, env)
  }

  /** `Context::Eval`: the text is tokenized, parsed and built into operations, which are evaluated once. */
  method EvalText(m: Machine, text: string, ghost vars: set<ExprVar>, ghost lits: set<ExprVar>)
    returns (r: Option<Num>)
    requires NUL !in text && MachineOK(m, vars + lits) && vars !! lits
    requires (forall v :: v in vars ==> !v.constant) && (forall v :: v in lits ==> v.constant)
    ensures r == Meaning(m, text, Snapshot(vars) + Snapshot(lits))
  {
    hide Lexed, TokensFrom, P.ParseChain, AllForParser, Bound, MachineOK;
    NoNul(text);
    var tokens := TokenizeExpr(m.ctx, Prepared(text));
    if tokens.None? {
      return None;
    }
    var tree := P.ParseExpr(AllForParser(tokens.value));
    if tree.None? {
      return None;
    }
    var e := G.Resolve(tree.value, Bound(m, tokens.value));
    ParsedOK(m, tokens.value, vars + lits);
    RootIsGroup(P.ParseChain(AllForParser(tokens.value), 0).value, Bound(m, tokens.value));
    var op := Build(e, vars, lits);
    FreezeMeaning(e, Snapshot(lits), Snapshot(vars));
    var v := op.Eval();
    r := if v == null then None else Some(v.value);
  }

  lemma RootIsGroup(t: P.Tree, b: G.Binding)
    ensures G.Resolve(P.Node(P.GroupOf, [t]), b) == Apply(Group, [G.Resolve(t, b)])
  {
    assert G.ResolveAll([t], b) == [G.Resolve(t, b)];
  }

  lemma NoNul(text: string)
    requires NUL !in text
    ensures NUL !in Prepared(text)
  {
    hide WithoutColons;
    ColonsGone(text);
  }

  lemma {:induction false} ColonsGone(text: string)
    requires NUL !in text
    ensures NUL !in WithoutColons(text)
  {
    if text != "" && text[0] == ':' {
      ColonsGone(text[1..]);
    }
  }

  /** `StringToEnum`, from the text to the number. */
  method ReadEnum(m: Machine, text: string, ghost vars: set<ExprVar>, ghost lits: set<ExprVar>) returns (v: nat)
    requires NUL !in text && MachineOK(m, vars + lits) && vars !! lits
    requires (forall v :: v in vars ==> !v.constant) && (forall v :: v in lits ==> v.constant)
    ensures v == StringToEnum(m, text, Snapshot(vars) + Snapshot(lits))
  {
    hide Parse, MachineOK;
    var r := EvalText(m, text, vars, lits);
    v := if r.None? then 0 else m.toInt(r.value);
  }

  lemma {:induction false} JoinedNoNul(words: seq<string>)
    requires forall i :: 0 <= i < |words| ==> IsWord(words[i])
    ensures NUL !in Joined(words)
    decreases |words|
  {
    if words != [] {
      assert IsWord(words[0]) && !IsWordChar(NUL);
      assert NUL !in words[0] && NUL !in "|";
      JoinedNoNul(words[1..]);
    }
  }

  lemma FlagsNoNul(m: Machine, def: EnumDef, v: nat)
    requires EnumOK(m.ctx, def) && v < 0x8000_0000
    ensures NUL !in FlagsText(def, v)
  {
    hide EnumOK, IsWord, WordOf, ValueOf, Joined;
    var parts := PartsFrom(def.values, 0, v);
    PartsOK(def.values, 0, v);
    var words := Words(def.values, parts);
    forall i | 0 <= i < |words| ensures IsWord(words[i]) {
      assert parts[i] in parts;
      PartReads(m.ctx, def, parts[i]);
    }
    JoinedNoNul(words);
  }

  lemma NamesGiven(m: Machine, def: EnumDef)
    requires EnumOK(m.ctx, def)
    ensures forall i :: 0 <= i < |def.values| ==> def.values[i].name != ""
  {
  }

  /** Flags are written, and the text is tokenized, parsed, built and evaluated: the value comes back
      exactly if no flag is written under the name of a known enumeration. */
  method FlagsThroughText(m: Machine, def: EnumDef, value: nat, ghost vars: set<ExprVar>, ghost lits: set<ExprVar>)
    returns (text: string, back: nat)
    requires Exact(m) && EnumOK(m.ctx, def) && value < 0x8000_0000 && MachineOK(m, vars + lits) && vars !! lits
    requires (forall v :: v in vars ==> !v.constant) && (forall v :: v in lits ==> v.constant)
    ensures text == FlagsText(def, value)
    ensures back == value <==> forall p :: p in PartsFrom(def.values, 0, value) ==> !Unreadable(m.ctx, def, p)
  {
    hide MachineOK, Exact, FlagsText, StringToEnum, PartsFrom, Unreadable, IsWord;
    NamesGiven(m, def);
    text := GetEnumFlagsString(def, value);
    FlagsNoNul(m, def, value);
    FlagsReadBack(m, def, value, Snapshot(vars) + Snapshot(lits));
    back := ReadEnum(m, text, vars, lits);
  }

  // ---- A flag that is lost -----------------------------------------------------------------------------

  /** An enumeration `eFoo` with a flag of the same name: the flag is written as "eFoo", which reads as
      zero. */
  lemma FlagLost(m: Machine, env: Env)
    requires var def := EnumDef("eFoo", [EnumValue("eFoo", 1)]);
             Exact(m) && m.ctx.defaultEnum == Some(def) && m.ctx.enums == map["eFoo" := def]
    ensures var def := EnumDef("eFoo", [EnumValue("eFoo", 1)]);
            FlagsText(def, 1) == "eFoo" && StringToEnum(m, "eFoo", env) == 0
  {
    var values := [EnumValue("eFoo", 1)];
    var def := EnumDef("eFoo", values);
    OnePart(values, 1);
    assert Words(values, [Flag(0)]) == ["eFoo"] && Joined(["eFoo"]) == "eFoo";
    assert IsWord("eFoo") && Shadowed(m.ctx, "eFoo");
    hide StringToEnum, Blocks;
    PartReads(m.ctx, def, Flag(0));
    BlockedJoined(m, ["eFoo"], [1], 0, env);
  }

  /** A value that is one flag is written by its name. */
  lemma OnePart(values: seq<EnumValue>, v: nat)
    requires |values| == 1 && values[0].value == v > 0
    ensures PartsFrom(values, 0, v) == [Flag(0)]
  {
    AllOfIt(v);
    assert PartsFrom(values, 1, 0) == [];
  }

  lemma {:induction false} AllOfIt(v: nat)
    ensures And(v, v) == v && Without(v, v) == 0
  {
    if v > 0 {
      AllOfIt(v / 2);
    }
  }
}
