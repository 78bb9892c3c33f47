/** When following a path leads to what creating it returned: creation looks names up exactly, while
    following takes them for file name patterns. */
module PathAgreement {
  import opened Chars
  import opened Wrappers
  import opened FilePatterns
  import opened Tables
  import opened TableObjects
  import opened TablePaths
  import opened TableWalks

  // ---- Steps that both look-ups take alike ---------------------------------------------------------

  /** The child or property of that name is the first that the name as a pattern matches. */
  ghost predicate ClearAt(g: Graph, depth: map<DataTable, nat>, cur: DataTable, op: PathOp)
    requires Linked(g, depth) && cur in g
  {
    match op
    case Child(name) =>
      var k := FirstTable(ByName, g, g[cur].children, name);
      DoesMatch(name, name) && forall j :: 0 <= j < k ==> !DoesMatch(name, g[g[cur].children[j]].name)
    case Prop(name) =>
      var k := FirstProp(ByName, g[cur].props, name);
      DoesMatch(name, name) && forall j :: 0 <= j < k ==> !DoesMatch(name, g[cur].props[j].name)
    case _ => true
  }

  /** ... on every step of the path as it was created. */
  ghost predicate Clear(g: Graph, depth: map<DataTable, nat>, cur: DataTable, ops: seq<PathOp>)
    requires Linked(g, depth) && cur in g
    decreases |ops|
  {
    ops != [] ==>
      && ClearAt(g, depth, cur, ops[0])
      && var next := Step(ByName, g, depth, cur, ops[0]);
         next.Some? && next.value.TableAt? ==> Clear(g, depth, next.value.table, ops[1..])
  }

  lemma ClearAtIff(g: Graph, depth: map<DataTable, nat>, cur: DataTable, op: PathOp)
    requires Linked(g, depth) && cur in g && Step(ByName, g, depth, cur, op).Some?
    ensures ClearAt(g, depth, cur, op) <==> Step(ByPattern, g, depth, cur, op) == Step(ByName, g, depth, cur, op)
  {
    hide DoesMatch, RootOf;
    ChildrenIn(g, depth, cur);
    match op {
      case Child(name) =>
        var tables := g[cur].children;
        var k, k' := FirstTable(ByName, g, tables, name), FirstTable(ByPattern, g, tables, name);
        assert g[tables[k]].name == name;
        if k' < |tables| && tables[k'] == tables[k] {
          assert k <= k';
          assert DoesMatch(name, name);
        }
        if ClearAt(g, depth, cur, op) {
          assert Fits(ByPattern, name, g[tables[k]].name);
          assert k' == k;
        }
      case Prop(name) =>
        var props := g[cur].props;
        var k, k' := FirstProp(ByName, props, name), FirstProp(ByPattern, props, name);
        assert props[k].name == name;
        if ClearAt(g, depth, cur, op) {
          assert Fits(ByPattern, name, props[k].name);
          assert k' == k;
        }
      case _ =>
    }
  }

  /** Along a clear path, following leads to what creating returned. */
  lemma {:induction false} ClearLeads(g: Graph, depth: map<DataTable, nat>, cur: DataTable, ops: seq<PathOp>)
    requires Linked(g, depth) && cur in g && Walk(ByName, g, depth, cur, ops).Some? && Clear(g, depth, cur, ops)
    ensures Walk(ByPattern, g, depth, cur, ops) == Walk(ByName, g, depth, cur, ops)
    decreases |ops|
  {
    hide Step, Linked, ClearAt;
    if ops != [] {
      ClearAtIff(g, depth, cur, ops[0]);
      var next := Step(ByName, g, depth, cur, ops[0]).value;
      if next.TableAt? {
        ClearLeads(g, depth, next.table, ops[1..]);
      }
    }
  }

  // ---- Paths that do not climb back ----------------------------------------------------------------

  /** Only further down. */
  predicate Down(ops: seq<PathOp>) {
    ops == [] || ops[0].Prop? || ((ops[0].Child? || ops[0].Current?) && Down(ops[1..]))
  }

  /** Never up again after a child. */
  predicate Forward(ops: seq<PathOp>) {
    ops == [] || ops[0].Prop? || if ops[0].Child? then Down(ops[1..]) else Forward(ops[1..])
  }

  lemma {:induction false} DownIsForward(ops: seq<PathOp>)
    requires Down(ops)
    ensures Forward(ops)
  {
    if ops != [] && ops[0].Current? {
      DownIsForward(ops[1..]);
    }
  }

  /** The table above `n`, or itself, that is `d` below the root. */
  ghost function Above(g: Graph, depth: map<DataTable, nat>, n: DataTable, d: nat): (r: DataTable)
    requires Linked(g, depth) && n in g
    ensures r in g
    decreases depth[n]
  {
    if depth[n] <= d then n else Above(g, depth, g[n].parent, d)
  }

  lemma DownStep(how: Lookup, g: Graph, depth: map<DataTable, nat>, cur: DataTable, op: PathOp)
    requires Linked(g, depth) && cur in g && (op.Child? || op.Current?) && Step(how, g, depth, cur, op).Some?
    ensures var next := Step(how, g, depth, cur, op).value.table;
            && depth[cur] <= depth[next]
            && (op.Child? ==> depth[next] == depth[cur] + 1 && g[next].parent == cur)
            && Above(g, depth, next, depth[cur]) == cur
  {
    hide DoesMatch;
    var next := Step(how, g, depth, cur, op).value.table;
    assert LinkedAt(g, depth, cur) && LinkedAt(g, depth, next);
  }

  lemma {:induction false} AboveTwice(g: Graph, depth: map<DataTable, nat>, n: DataTable, d: nat, e: nat)
    requires Linked(g, depth) && n in g && d <= e
    ensures Above(g, depth, Above(g, depth, n, e), d) == Above(g, depth, n, d)
    decreases depth[n]
  {
    if depth[n] > e {
      AboveTwice(g, depth, g[n].parent, d, e);
    }
  }

  /** Going down, a walk stays below where it started. */
  lemma {:induction false} DownStays(how: Lookup, g: Graph, depth: map<DataTable, nat>, cur: DataTable,
                                     ops: seq<PathOp>)
    requires Linked(g, depth) && cur in g && Down(ops) && Walk(how, g, depth, cur, ops).Some?
    ensures Above(g, depth, Walk(how, g, depth, cur, ops).value.table, depth[cur]) == cur
    decreases |ops|
  {
    if ops == [] {
    } else if ops[0].Prop? {
    } else {
      DownStep(how, g, depth, cur, ops[0]);
      hide Step, Linked;
      var next := Step(how, g, depth, cur, ops[0]).value.table;
      DownStays(how, g, depth, next, ops[1..]);
      var t := Walk(how, g, depth, cur, ops).value.table;
      AboveTwice(g, depth, t, depth[cur], depth[next]);
    }
  }

  lemma {:induction false} LeadsClear(g: Graph, depth: map<DataTable, nat>, cur: DataTable, ops: seq<PathOp>)
    requires Linked(g, depth) && cur in g && Forward(ops) && Walk(ByName, g, depth, cur, ops).Some?
    requires Walk(ByPattern, g, depth, cur, ops) == Walk(ByName, g, depth, cur, ops)
    ensures Clear(g, depth, cur, ops)
    decreases |ops|
  {
    hide Step, Linked, ClearAt, Above;
    if ops != [] {
      var a, b := Step(ByName, g, depth, cur, ops[0]), Step(ByPattern, g, depth, cur, ops[0]);
      if ops[0].Child? {
        SameChild(g, depth, cur, ops);
        DownIsForward(ops[1..]);
      } else if !ops[0].Prop? {
        assert a == b by { SameOther(g, depth, cur, ops[0]); }
      }
      ClearAtIff(g, depth, cur, ops[0]);
      if a.value.TableAt? {
        LeadsClear(g, depth, a.value.table, ops[1..]);
      }
    }
  }

  lemma SameOther(g: Graph, depth: map<DataTable, nat>, cur: DataTable, op: PathOp)
    requires Linked(g, depth) && cur in g && !op.Child? && !op.Prop?
    ensures Step(ByPattern, g, depth, cur, op) == Step(ByName, g, depth, cur, op)
  {
  }

  /** Two walks that only go down and end at one table took the same child first. */
  lemma SameChild(g: Graph, depth: map<DataTable, nat>, cur: DataTable, ops: seq<PathOp>)
    requires Linked(g, depth) && cur in g && ops != [] && ops[0].Child? && Down(ops[1..])
    requires Walk(ByName, g, depth, cur, ops).Some?
    requires Walk(ByPattern, g, depth, cur, ops) == Walk(ByName, g, depth, cur, ops)
    ensures Step(ByPattern, g, depth, cur, ops[0]) == Step(ByName, g, depth, cur, ops[0])
  {
    DownStep(ByName, g, depth, cur, ops[0]);
    DownStep(ByPattern, g, depth, cur, ops[0]);
    hide Step, Linked, Above;
    var a := Step(ByName, g, depth, cur, ops[0]).value.table;
    var b := Step(ByPattern, g, depth, cur, ops[0]).value.table;
    DownStays(ByName, g, depth, a, ops[1..]);
    DownStays(ByPattern, g, depth, b, ops[1..]);
  }

  // ---- The path that is left of a path -------------------------------------------------------------

  /** A path without the steps that later ones take back, `done` being what is left so far. */
  function Net(done: seq<PathOp>, ops: seq<PathOp>): seq<PathOp>
    decreases |ops|
  {
    if ops == [] then done
    else
      match ops[0]
      case Root => Net([Root], ops[1..])
      case Current => Net(done, ops[1..])
      case Parent =>
        if done != [] && done[|done| - 1].Child? then Net(done[..|done| - 1], ops[1..])
        else Net(done + [Parent], ops[1..])
      case Child(_) => Net(done + [ops[0]], ops[1..])
      case Prop(_) => done + [ops[0]]
  }

  /** Roots and parents first, then children. */
  predicate UpThenDown(ops: seq<PathOp>) {
    && (forall i :: 0 <= i < |ops| ==> !ops[i].Current? && !ops[i].Prop?)
    && forall i, j :: 0 <= i < j < |ops| && ops[i].Child? ==> ops[j].Child?
  }

  lemma {:induction false} AllChildrenDown(ops: seq<PathOp>, last: seq<PathOp>)
    requires (forall i :: 0 <= i < |ops| ==> ops[i].Child?) && (last == [] || last[0].Prop?)
    ensures Down(ops + last)
  {
    if ops == [] {
      assert ops + last == last;
    } else {
      assert (ops + last)[1..] == ops[1..] + last;
      AllChildrenDown(ops[1..], last);
    }
  }

  lemma {:induction false} UpThenDownForward(ops: seq<PathOp>, last: seq<PathOp>)
    requires UpThenDown(ops) && (last == [] || last[0].Prop?)
    ensures Forward(ops + last)
  {
    if ops == [] {
      assert ops + last == last;
    } else {
      assert (ops + last)[1..] == ops[1..] + last && (ops + last)[0] == ops[0];
      if ops[0].Child? {
        AllChildrenDown(ops[1..], last);
      } else {
        UpThenDownForward(ops[1..], last);
      }
    }
  }

  lemma {:induction false} NetIsForward(done: seq<PathOp>, ops: seq<PathOp>)
    requires UpThenDown(done)
    ensures Forward(Net(done, ops))
    decreases |ops|
  {
    hide Forward;
    if ops == [] {
      UpThenDownForward(done, []);
      assert done + [] == done;
    } else {
      match ops[0] {
        case Root => NetIsForward([Root], ops[1..]);
        case Current => NetIsForward(done, ops[1..]);
        case Parent =>
          if done != [] && done[|done| - 1].Child? {
            NetIsForward(done[..|done| - 1], ops[1..]);
          } else {
            assert forall i :: 0 <= i < |done| ==> !done[i].Child?;
            NetIsForward(done + [Parent], ops[1..]);
          }
        case Child(_) => NetIsForward(done + [ops[0]], ops[1..]);
        case Prop(_) => UpThenDownForward(done, [ops[0]]);
      }
    }
  }

  lemma WalkSnoc(how: Lookup, g: Graph, depth: map<DataTable, nat>, from: DataTable, done: seq<PathOp>,
                 cur: DataTable, op: PathOp)
    requires Leads(how, g, depth, from, done, TableAt(cur))
    ensures cur in g && Walk(how, g, depth, from, done + [op]) == Step(how, g, depth, cur, op)
  {
    assert (done + [op])[..|done|] == done && (done + [op])[|done|..] == [op];
    WalkSplit(how, g, depth, from, done + [op], |done|);
    WalkOne(how, g, depth, cur, op);
  }

  lemma StepSameRoot(how: Lookup, g: Graph, depth: map<DataTable, nat>, cur: DataTable, op: PathOp)
    requires Linked(g, depth) && cur in g && Step(how, g, depth, cur, op).Some?
    ensures RootOf(g, depth, Step(how, g, depth, cur, op).value.table) == RootOf(g, depth, cur)
  {
    assert LinkedAt(g, depth, cur);
    if op.Child? {
      DownStep(how, g, depth, cur, op);
    }
  }

  lemma {:induction false} WalkSameRoot(how: Lookup, g: Graph, depth: map<DataTable, nat>, cur: DataTable,
                                        ops: seq<PathOp>)
    requires Linked(g, depth) && cur in g && Walk(how, g, depth, cur, ops).Some?
    ensures RootOf(g, depth, Walk(how, g, depth, cur, ops).value.table) == RootOf(g, depth, cur)
    decreases |ops|
  {
    hide Step, Linked, RootOf;
    if ops != [] {
      StepSameRoot(how, g, depth, cur, ops[0]);
      var next := Step(how, g, depth, cur, ops[0]).value;
      if next.TableAt? {
        WalkSameRoot(how, g, depth, next.table, ops[1..]);
      }
    }
  }

  /** Going up from where a path that ends with a child leads is going along the path without it. */
  lemma UpAfterChild(how: Lookup, g: Graph, depth: map<DataTable, nat>, from: DataTable, done: seq<PathOp>,
                     cur: DataTable)
    requires Leads(how, g, depth, from, done, TableAt(cur)) && done != [] && done[|done| - 1].Child?
    ensures g[cur].parent != null && Leads(how, g, depth, from, done[..|done| - 1], TableAt(g[cur].parent))
  {
    hide Step, Linked;
    var n := |done| - 1;
    WalkSplit(how, g, depth, from, done, n);
    var r := Walk(how, g, depth, from, done[..n]);
    assert done[n..] == [done[n]];
    if r.Some? && r.value.TableAt? {
      var p := r.value.table;
      WalkOne(how, g, depth, p, done[n]);
      DownStep(how, g, depth, p, done[n]);
    }
  }

  /** A path that leads somewhere leads where what is left of it leads. */
  lemma {:induction false} WalkNet(how: Lookup, g: Graph, depth: map<DataTable, nat>, from: DataTable,
                                   done: seq<PathOp>, cur: DataTable, ops: seq<PathOp>)
    requires Leads(how, g, depth, from, done, TableAt(cur)) && cur in g && Walk(how, g, depth, cur, ops).Some?
    ensures Walk(how, g, depth, from, Net(done, ops)) == Walk(how, g, depth, cur, ops)
    decreases |ops|
  {
    hide Step, Linked, RootOf;
    if ops != [] {
      var op := ops[0];
      var next := Step(how, g, depth, cur, op).value;
      WalkSnoc(how, g, depth, from, done, cur, op);
      StepMeans(how, g, depth, cur, op);
      match op {
        case Root =>
          WalkSameRoot(how, g, depth, from, done);
          WalkOne(how, g, depth, from, Root);
          StepMeans(how, g, depth, from, Root);
          WalkNet(how, g, depth, from, [Root], next.table, ops[1..]);
        case Current => WalkNet(how, g, depth, from, done, cur, ops[1..]);
        case Parent =>
          if done != [] && done[|done| - 1].Child? {
            UpAfterChild(how, g, depth, from, done, cur);
            WalkNet(how, g, depth, from, done[..|done| - 1], next.table, ops[1..]);
          } else {
            WalkNet(how, g, depth, from, done + [Parent], next.table, ops[1..]);
          }
        case Child(_) => WalkNet(how, g, depth, from, done + [op], next.table, ops[1..]);
        case Prop(_) =>
      }
    }
  }

  lemma StepMeans(how: Lookup, g: Graph, depth: map<DataTable, nat>, cur: DataTable, op: PathOp)
    requires Linked(g, depth) && cur in g
    ensures op.Root? ==> Step(how, g, depth, cur, op) == Some(TableAt(RootOf(g, depth, cur)))
    ensures op.Current? ==> Step(how, g, depth, cur, op) == Some(TableAt(cur))
    ensures op.Parent? && g[cur].parent != null ==> Step(how, g, depth, cur, op) == Some(TableAt(g[cur].parent))
  {
  }

  // ---- Created paths -------------------------------------------------------------------------------

  /** Following a path that was created leads to what the creation returned exactly if it leads
      somewhere at all and, on every step that is not taken back, the name as a pattern finds the table
      or property of that name first. */
  lemma CreatedIsFound(g: Graph, depth: map<DataTable, nat>, table: DataTable, ops: seq<PathOp>, target: Target)
    requires Leads(ByName, g, depth, table, ops, target)
    ensures table in g
    ensures Leads(ByPattern, g, depth, table, ops, target) <==>
            LeadsSomewhere(ByPattern, g, depth, table, ops) && Clear(g, depth, table, Net([], ops))
    ensures Forward(ops) ==> (Leads(ByPattern, g, depth, table, ops, target) <==> Clear(g, depth, table, ops))
  {
    hide Step, Linked, Clear, Net, Forward;
    var net := Net([], ops);
    WalkNothing(ByName, g, depth, table);
    WalkNothing(ByPattern, g, depth, table);
    WalkNet(ByName, g, depth, table, [], table, ops);
    NetIsForward([], ops);
    if LeadsSomewhere(ByPattern, g, depth, table, ops) {
      WalkNet(ByPattern, g, depth, table, [], table, ops);
      if Clear(g, depth, table, net) {
        ClearLeads(g, depth, table, net);
      } else if Leads(ByPattern, g, depth, table, ops, target) {
        LeadsClear(g, depth, table, net);
      }
    }
    if Forward(ops) {
      if Clear(g, depth, table, ops) {
        ClearLeads(g, depth, table, ops);
      } else if Leads(ByPattern, g, depth, table, ops, target) {
        LeadsClear(g, depth, table, ops);
      }
    }
  }

  // ---- Names without wildcards ---------------------------------------------------------------------

  /** The names of a path hold no wildcards. */
  predicate LiteralOps(ops: seq<PathOp>) {
    forall i :: 0 <= i < |ops| && (ops[i].Child? || ops[i].Prop?) ==> Literal(ops[i].name)
  }

  /** No earlier child or property than the one of that name differs from it in case only. */
  ghost predicate UnshadowedAt(g: Graph, depth: map<DataTable, nat>, cur: DataTable, op: PathOp)
    requires Linked(g, depth) && cur in g
  {
    match op
    case Child(name) =>
      var k := FirstTable(ByName, g, g[cur].children, name);
      forall j :: 0 <= j < k ==> !SameFolded(name, g[g[cur].children[j]].name)
    case Prop(name) =>
      var k := FirstProp(ByName, g[cur].props, name);
      forall j :: 0 <= j < k ==> !SameFolded(name, g[cur].props[j].name)
    case _ => true
  }

  /** ... on every step of the path as it was created. */
  ghost predicate Unshadowed(g: Graph, depth: map<DataTable, nat>, cur: DataTable, ops: seq<PathOp>)
    requires Linked(g, depth) && cur in g
    decreases |ops|
  {
    ops != [] ==>
      && UnshadowedAt(g, depth, cur, ops[0])
      && var next := Step(ByName, g, depth, cur, ops[0]);
         next.Some? && next.value.TableAt? ==> Unshadowed(g, depth, next.value.table, ops[1..])
  }

  lemma MatchesItself(name: string)
    requires Literal(name)
    ensures DoesMatch(name, name)
  {
    LiteralMatches(name, name);
  }

  lemma LiteralClearAt(g: Graph, depth: map<DataTable, nat>, cur: DataTable, op: PathOp)
    requires Linked(g, depth) && cur in g && (op.Child? || op.Prop? ==> Literal(op.name))
    ensures ClearAt(g, depth, cur, op) <==> UnshadowedAt(g, depth, cur, op)
  {
    hide DoesMatch, SameFolded, Literal;
    ChildrenIn(g, depth, cur);
    match op {
      case Child(name) =>
        MatchesItself(name);
        forall j | 0 <= j < FirstTable(ByName, g, g[cur].children, name)
          ensures var other := g[g[cur].children[j]].name; DoesMatch(name, other) <==> SameFolded(name, other)
        {
          LiteralMatches(name, g[g[cur].children[j]].name);
        }
      case Prop(name) =>
        MatchesItself(name);
        forall j | 0 <= j < FirstProp(ByName, g[cur].props, name)
          ensures var other := g[cur].props[j].name; DoesMatch(name, other) <==> SameFolded(name, other)
        {
          LiteralMatches(name, g[cur].props[j].name);
        }
      case _ =>
    }
  }

  lemma {:induction false} LiteralClear(g: Graph, depth: map<DataTable, nat>, cur: DataTable, ops: seq<PathOp>)
    requires Linked(g, depth) && cur in g && LiteralOps(ops)
    ensures Clear(g, depth, cur, ops) <==> Unshadowed(g, depth, cur, ops)
    decreases |ops|
  {
    hide Step, Linked, ClearAt, UnshadowedAt;
    if ops != [] {
      LiteralClearAt(g, depth, cur, ops[0]);
      var next := Step(ByName, g, depth, cur, ops[0]);
      if next.Some? && next.value.TableAt? {
        LiteralClear(g, depth, next.value.table, ops[1..]);
      }
    }
  }

  /** A path of names without wildcards that does not climb back: following it after its creation leads
      to what the creation returned exactly if no step has an earlier sibling or property whose name
      differs in the case of letters only. */
  lemma LiteralCreatedIsFound(g: Graph, depth: map<DataTable, nat>, table: DataTable, ops: seq<PathOp>,
                              target: Target)
    requires Leads(ByName, g, depth, table, ops, target) && LiteralOps(ops) && Forward(ops)
    ensures table in g
    ensures Leads(ByPattern, g, depth, table, ops, target) <==> Unshadowed(g, depth, table, ops)
  {
    hide Step, Linked, Clear, Net, Forward, Unshadowed, LiteralOps;
    CreatedIsFound(g, depth, table, ops, target);
    LiteralClear(g, depth, table, ops);
  }

  /** A name that begins with an exclamation mark can be created, but is never found. */
  lemma {:induction false} NegatedIsNeverFound(g: Graph, depth: map<DataTable, nat>, cur: DataTable, ops: seq<PathOp>,
                                               i: nat)
    requires Linked(g, depth) && cur in g && i < |ops| && forall j :: 0 <= j < i ==> !ops[j].Prop?
    requires (ops[i].Child? || ops[i].Prop?) && ops[i].name != "" && ops[i].name[0] == '!'
    ensures Walk(ByPattern, g, depth, cur, ops) == None
    decreases i
  {
    if i > 0 {
      hide Linked;
      var next := Step(ByPattern, g, depth, cur, ops[0]);
      assert !ops[0].Prop?;
      if next.Some? {
        NegatedIsNeverFound(g, depth, next.value.table, ops[1..], i - 1);
      }
    }
  }

  // ---- The condition before the creation -----------------------------------------------------------

  /** Every name matches itself. */
  ghost predicate AllMatch(ops: seq<PathOp>) {
    ops != [] ==>
      && (ops[0].Child? || ops[0].Prop? ==> DoesMatch(ops[0].name, ops[0].name))
      && (!ops[0].Prop? ==> AllMatch(ops[1..]))
  }

  /** What `Clear` will say after the creation, asked before it: as far as the names are there, each is
      the first that it matches as a pattern; the first that is missing matches nothing that is there;
      and it and those after it match themselves. */
  ghost predicate ClearBefore(g: Graph, depth: map<DataTable, nat>, cur: DataTable, ops: seq<PathOp>)
    requires Linked(g, depth) && cur in g
    decreases |ops|
  {
    ops != [] ==>
      && ClearAt(g, depth, cur, ops[0])
      && var next := Step(ByName, g, depth, cur, ops[0]);
         if next.Some? && next.value.TableAt? then ClearBefore(g, depth, next.value.table, ops[1..])
         else ops[0].Child? ==> AllMatch(ops[1..])
  }

  /** In a table without children and properties all names are missing. */
  lemma {:induction false} EmptyClear(g: Graph, depth: map<DataTable, nat>, cur: DataTable, ops: seq<PathOp>)
    requires Linked(g, depth) && cur in g && g[cur].children == [] && g[cur].props == [] && Down(ops)
    ensures ClearBefore(g, depth, cur, ops) <==> AllMatch(ops)
    decreases |ops|
  {
    hide DoesMatch, RootOf, Linked;
    if ops != [] && ops[0].Current? {
      EmptyClear(g, depth, cur, ops[1..]);
    }
  }

  /** A step is as clear after the creation as it was before. */
  lemma ClearAtKept(p: Place, op: PathOp, q: Place, end: Place)
    requires Makes(false, p, op, q) && PlaceOK(end) && Kept(q.g, end.g)
    ensures p.cur in end.g && Step(ByName, end.g, end.depth, p.cur, op) == Some(TableAt(q.cur))
    ensures ClearAt(end.g, end.depth, p.cur, op) <==> ClearAt(p.g, p.depth, p.cur, op)
  {
    hide DoesMatch, RootOf, Linked;
    MakesFacts(false, p, op, q);
    KeptGrows(q.g, end.g);
    ChildrenIn(p.g, p.depth, p.cur);
    ChildrenIn(q.g, q.depth, p.cur);
    hide Kept, Makes;
    StepGrown(ByName, q.g, end.g, q.depth, end.depth, p.cur, op);
    if op.Child? {
      FirstKept(p, op, q);
      ChildrenIn(end.g, end.depth, p.cur);
      hide Grown;
      GrownChildren(q.g, end.g, p.cur);
      SameFirst(ByName, q.g, end.g, q.g[p.cur].children, end.g[p.cur].children, op.name);
    }
  }

  ghost predicate SameName(g: Graph, g': Graph, n: DataTable) {
    n in g && n in g' && g'[n].name == g[n].name
  }

  lemma GrownChildren(g: Graph, g': Graph, n: DataTable)
    requires Grown(g, g') && n in g && forall i :: 0 <= i < |g[n].children| ==> g[n].children[i] in g
    ensures n in g' && g[n].children <= g'[n].children
    ensures forall i :: 0 <= i < |g[n].children| ==> SameName(g, g', g[n].children[i])
  {
  }

  /** The child that is followed or created is at the place the look-up stopped at. */
  lemma FirstKept(p: Place, op: PathOp, q: Place)
    requires Makes(false, p, op, q) && op.Child? && p.cur in q.g
    requires forall i :: 0 <= i < |p.g[p.cur].children| ==> p.g[p.cur].children[i] in p.g
    requires forall i :: 0 <= i < |q.g[p.cur].children| ==> q.g[p.cur].children[i] in q.g
    ensures var k := FirstTable(ByName, p.g, p.g[p.cur].children, op.name);
            && k == FirstTable(ByName, q.g, q.g[p.cur].children, op.name) < |q.g[p.cur].children|
            && forall j :: 0 <= j < k ==> q.g[p.cur].children[j] == p.g[p.cur].children[j]
                                          && q.g[q.g[p.cur].children[j]].name == p.g[p.g[p.cur].children[j]].name
  {
    hide Linked, RootOf;
    if Step(ByName, p.g, p.depth, p.cur, op).None? {
      ChildAdded(p.g, p.depth, p.cur, q.cur, op.name);
    }
  }

  lemma ClearPropKept(p: Place, op: PathOp, end: Place, k: nat)
    requires MakesProp(p, op, end, k)
    ensures p.cur in end.g && Kept(p.g, end.g) && Step(ByName, end.g, end.depth, p.cur, op) == Some(PropAt(p.cur, k))
    ensures ClearAt(end.g, end.depth, p.cur, op) <==> ClearAt(p.g, p.depth, p.cur, op)
    ensures Step(ByName, p.g, p.depth, p.cur, op).Some? ==> Step(ByName, p.g, p.depth, p.cur, op).value.PropAt?
  {
    hide DoesMatch, RootOf, Linked, Kept;
    MakesPropFacts(p, op, end, k);
    NameIndex(p.g[p.cur].props, op.name);
    assert FirstProp(ByName, end.g[p.cur].props, op.name) == k == FirstProp(ByName, p.g[p.cur].props, op.name);
    assert forall j :: 0 <= j < k ==> end.g[p.cur].props[j] == p.g[p.cur].props[j];
  }

  lemma NewIsEmpty(p: Place, op: PathOp, q: Place)
    requires Makes(false, p, op, q) && op.Child? && Step(ByName, p.g, p.depth, p.cur, op).None?
    ensures q.g[q.cur].children == [] && q.g[q.cur].props == []
  {
  }

  lemma MakesNext(p: Place, op: PathOp, q: Place)
    requires Makes(false, p, op, q)
    ensures Step(ByName, p.g, p.depth, p.cur, op).None? ==> op.Child?
    ensures Step(ByName, p.g, p.depth, p.cur, op).Some? ==>
      Step(ByName, p.g, p.depth, p.cur, op) == Some(TableAt(q.cur)) && q.g == p.g && q.depth == p.depth
  {
  }

  /** From operation `i` on: as clear in the end as before. */
  lemma {:induction false} ClearFrom(trace: seq<Place>, ops: seq<PathOp>, end: Place, target: Target, i: nat)
    requires Creates(false, trace, ops, end, target) && i < |trace| && Forward(ops[i..])
    ensures var p := trace[i];
            && PlaceOK(p) && PlaceOK(end) && Kept(p.g, end.g) && p.cur in end.g
            && (Clear(end.g, end.depth, p.cur, ops[i..]) <==> ClearBefore(p.g, p.depth, p.cur, ops[i..]))
    decreases |trace| - i
  {
    hide DoesMatch, RootOf, Step, Linked, Kept, Makes, MakesProp, ClearAt;
    var p := trace[i];
    TraceFacts(false, trace, ops, i);
    CreatesFacts(false, trace, ops, end, target);
    KeptSelf(p.g);
    if i == |trace| - 1 {
      if target.TableAt? {
        assert ops[i..] == [];
      } else {
        ClearPropKept(p, ops[i], end, target.index);
        assert ops[i..][0] == ops[i];
        PropOp(p, ops[i], end, target.index);
      }
    } else {
      var op, q := ops[i], trace[i + 1];
      assert ops[i..][0] == op && ops[i..][1..] == ops[i + 1..];
      assert Makes(false, p, op, q);
      MakesOK(false, p, op, q);
      if op.Child? {
        DownIsForward(ops[i + 1..]);
      }
      ClearFrom(trace, ops, end, target, i + 1);
      MakesFacts(false, p, op, q);
      KeptTwice(p.g, q.g, end.g);
      ClearAtKept(p, op, q, end);
      MakesNext(p, op, q);
      if Step(ByName, p.g, p.depth, p.cur, op).None? {
        NewIsEmpty(p, op, q);
        EmptyClear(q.g, q.depth, q.cur, ops[i + 1..]);
      }
    }
  }

  lemma PropOp(p: Place, op: PathOp, end: Place, k: nat)
    requires MakesProp(p, op, end, k)
    ensures op.Prop?
  {
  }

  /** Whether a path that does not climb back will be found where it is about to be created can be told
      from the tree as it is before. */
  lemma FoundIffClearBefore(trace: seq<Place>, ops: seq<PathOp>, end: Place, target: Target)
    requires Creates(false, trace, ops, end, target) && Forward(ops)
    ensures var a := trace[0];
            && PlaceOK(a)
            && (Leads(ByPattern, end.g, end.depth, a.cur, ops, target) <==> ClearBefore(a.g, a.depth, a.cur, ops))
  {
    hide Step, Linked, Clear, ClearBefore, Forward, Kept;
    assert ops[0..] == ops;
    CreatesFacts(false, trace, ops, end, target);
    ClearFrom(trace, ops, end, target, 0);
    CreatedIsFound(end.g, end.depth, trace[0].cur, ops, target);
  }

  lemma {:induction false} LiteralsMatch(ops: seq<PathOp>)
    requires LiteralOps(ops)
    ensures AllMatch(ops)
  {
    if ops != [] {
      if ops[0].Child? || ops[0].Prop? {
        MatchesItself(ops[0].name);
      }
      LiteralsMatch(ops[1..]);
    }
  }

  lemma {:induction false} LiteralClearBefore(g: Graph, depth: map<DataTable, nat>, cur: DataTable, ops: seq<PathOp>)
    requires Linked(g, depth) && cur in g && LiteralOps(ops)
    ensures ClearBefore(g, depth, cur, ops) <==> Unshadowed(g, depth, cur, ops)
    decreases |ops|
  {
    hide Step, Linked, ClearAt, UnshadowedAt, AllMatch;
    if ops != [] {
      LiteralClearAt(g, depth, cur, ops[0]);
      LiteralsMatch(ops[1..]);
      var next := Step(ByName, g, depth, cur, ops[0]);
      if next.Some? && next.value.TableAt? {
        LiteralClearBefore(g, depth, next.value.table, ops[1..]);
      }
    }
  }

  /** ... and for names without wildcards: exactly if, as far as the names are there, no earlier sibling
      or property differs from one in case only, nor does any from the first name that is missing. */
  lemma LiteralFoundIffBefore(trace: seq<Place>, ops: seq<PathOp>, end: Place, target: Target)
    requires Creates(false, trace, ops, end, target) && Forward(ops) && LiteralOps(ops)
    ensures var a := trace[0];
            && PlaceOK(a)
            && (Leads(ByPattern, end.g, end.depth, a.cur, ops, target) <==> Unshadowed(a.g, a.depth, a.cur, ops))
  {
    hide Step, Linked, ClearBefore, Unshadowed, Forward, LiteralOps, Makes, MakesProp;
    FoundIffClearBefore(trace, ops, end, target);
    LiteralClearBefore(trace[0].g, trace[0].depth, trace[0].cur, ops);
  }

  // ---- Values set and read back --------------------------------------------------------------------

  /** Walks do not depend on values. */
  lemma WalkValue(how: Lookup, g: Graph, depth: map<DataTable, nat>, table: DataTable, ops: seq<PathOp>,
                  t: DataTable, k: nat, value: Var)
    requires Linked(g, depth) && table in g && t in g && k < |g[t].props|
    ensures Linked(WithValue(g, t, k, value), depth)
    ensures Walk(how, WithValue(g, t, k, value), depth, table, ops) == Walk(how, g, depth, table, ops)
  {
    var g' := WithValue(g, t, k, value);
    LinkedValue(g, depth, t, k, value);
    GrownValue(g, t, k, value);
    GrownValue(g', t, k, g[t].props[k].value);
    assert WithValue(g', t, k, g[t].props[k].value) == g by {
      assert g'[t].props[k := g'[t].props[k].(value := g[t].props[k].value)] == g[t].props;
    }
    hide Linked, Grown, WithValue;
    if Walk(how, g, depth, table, ops).Some? {
      WalkGrown(how, g, g', depth, depth, table, ops);
    } else if Walk(how, g', depth, table, ops).Some? {
      WalkGrown(how, g', g, depth, depth, table, ops);
    }
  }

  /** What is read at a path, as a pattern, after `value` is set at a property. */
  ghost function ReadAfter(g: Graph, depth: map<DataTable, nat>, table: DataTable, ops: seq<PathOp>, t: DataTable,
                           k: nat, value: Var): Option<Var>
    requires Linked(g, depth) && table in g && t in g && k < |g[t].props|
  {
    LinkedValue(g, depth, t, k, value);
    ValueAt(ByPattern, WithValue(g, t, k, value), depth, table, ops)
  }

  lemma ReadAfterIs(g: Graph, depth: map<DataTable, nat>, table: DataTable, ops: seq<PathOp>, t: DataTable, k: nat,
                    value: Var)
    requires Linked(g, depth) && table in g && t in g && k < |g[t].props|
    ensures var r := Walk(ByPattern, g, depth, table, ops);
            ReadAfter(g, depth, table, ops, t, k, value) ==
            if r == Some(PropAt(t, k)) then Some(value)
            else if r.Some? && r.value.PropAt? then Some(g[r.value.table].props[r.value.index].value) else None
  {
    hide Linked, Walk;
    WalkValue(ByPattern, g, depth, table, ops, t, k, value);
  }

  /** Whatever is set at a property is what is read at the path, exactly if the path as patterns leads to
      that property. */
  lemma ReadsBackIffFound(g: Graph, depth: map<DataTable, nat>, table: DataTable, ops: seq<PathOp>, t: DataTable,
                          k: nat)
    requires Linked(g, depth) && table in g && t in g && k < |g[t].props|
    ensures (forall v :: ReadAfter(g, depth, table, ops, t, k, v) == Some(v)) <==>
            Leads(ByPattern, g, depth, table, ops, PropAt(t, k))
  {
    hide Linked, Walk, ReadAfter;
    forall v ensures Leads(ByPattern, g, depth, table, ops, PropAt(t, k)) ==>
      ReadAfter(g, depth, table, ops, t, k, v) == Some(v)
    {
      ReadAfterIs(g, depth, table, ops, t, k, v);
    }
    if !Leads(ByPattern, g, depth, table, ops, PropAt(t, k)) {
      ReadAfterIs(g, depth, table, ops, t, k, Null);
      ReadAfterIs(g, depth, table, ops, t, k, Str(""));
      assert ReadAfter(g, depth, table, ops, t, k, Null) != Some(Null) ||
             ReadAfter(g, depth, table, ops, t, k, Str("")) != Some(Str(""));
    }
  }

  /** Sets a value at a path and reads it there again. For a path that does not climb back, it is the
      value that was set if every name is clear in the tree as it was, and only then for every value. */
  method SetThenGet(table: DataTable, path: string, value: Var, default: Var, ghost tables: set<DataTable>,
                    ghost depth: map<DataTable, nat>)
    returns (ok: bool, got: Var, ghost tables': set<DataTable>, ghost made: Place, ghost target: Option<Target>)
    requires table in tables && Linked(Snapshot(tables), depth)
    modifies tables
    ensures ok <==> LegalAt(OpsIn(path), depth, table) && NamesProp(OpsIn(path))
    ensures ok && Forward(OpsIn(path)) && old(ClearBefore(Snapshot(tables), depth, table, OpsIn(path))) ==> got == value
    ensures ok && Forward(OpsIn(path)) ==> target.Some? && target.value.PropAt? && PlaceOK(made) && table in made.g
    ensures ok && Forward(OpsIn(path)) ==> var (t, k) := (target.value.table, target.value.index);
              && t in made.g && k < |made.g[t].props| && Snapshot(tables') == WithValue(made.g, t, k, value)
              && (old(ClearBefore(Snapshot(tables), depth, table, OpsIn(path))) <==>
                  forall v :: ReadAfter(made.g, made.depth, table, OpsIn(path), t, k, v) == Some(v))
  {
    hide Linked, Walk, OpsIn, LegalAt, NamesProp, KeptBut, Leads, ClearBefore, Forward, Creates, ReadAfter;
    got := default;
    ghost var depth', trace;
    ok, tables', depth', target, trace, made := NewVarFromPath(table, path, value, tables, depth);
    if !ok {
      return;
    }
    ghost var ops, t, k := OpsIn(path), target.value.table, target.value.index;
    EndsWell(trace, ops, made, target.value);
    if Forward(ops) {
      FoundIffClearBefore(trace, ops, made, target.value);
      ReadsBackIffFound(made.g, made.depth, table, ops, t, k);
      ReadAfterSet(made, table, ops, t, k, value, tables', depth');
    }
    got := GetVarFromPath(table, path, default, tables', depth');
  }

  lemma EndsWell(trace: seq<Place>, ops: seq<PathOp>, end: Place, target: Target)
    requires Creates(false, trace, ops, end, target) && trace != []
    ensures PlaceOK(end) && PlaceOK(trace[0]) && trace[0].cur in end.g
  {
    hide Linked, Makes, MakesProp, Kept;
    CreatesFacts(false, trace, ops, end, target);
    KeptGrows(trace[0].g, end.g);
    StillThere(trace[0].g, end.g, trace[0].cur);
  }

  lemma StillThere(g: Graph, g': Graph, n: DataTable)
    requires Grown(g, g') && n in g
    ensures n in g'
  {
  }

  lemma ReadAfterSet(made: Place, table: DataTable, ops: seq<PathOp>, t: DataTable, k: nat, value: Var,
                     tables: set<DataTable>, depth: map<DataTable, nat>)
    requires PlaceOK(made) && table in made.g && t in made.g && k < |made.g[t].props| && depth == made.depth
    requires Snapshot(tables) == WithValue(made.g, t, k, value) && Linked(Snapshot(tables), depth)
    ensures table in tables
    ensures ReadAfter(made.g, made.depth, table, ops, t, k, value) ==
            ValueAt(ByPattern, Snapshot(tables), depth, table, ops)
  {
    hide Linked, Walk;
    SnapshotKeys(tables);
  }

  // ---- Inputs on which following and creating disagree ---------------------------------------------

  lemma OneName(name: string)
    requires IsToken(name)
    ensures OpsIn(name) == [Child(name)] && OpsIn("@" + name) == [Prop(name)]
  {
    hide Tokens, OpsOf, Trimmed;
    NotTrimmed(name);
    FirstToken(name);
    NotTrimmed("@" + name);
    AtToken(name);
    OpsOfOne(name);
  }

  lemma FirstToken(name: string)
    requires IsToken(name)
    ensures Tokens(name, "", true) == [name]
  {
    assert TypeOf(name[0], false) == Normal;
    assert TypeOf(name[0], true) == Normal;
    forall i | 0 <= i < |name| - 1 ensures TypeOf(name[1..][i], false) == Normal {
      assert TypeOf(name[i + 1], false) == Normal;
    }
    PlainRest(name[1..], [name[0]]);
    assert "" + [name[0]] == [name[0]] && [name[0]] + name[1..] == name;
  }

  lemma AtToken(name: string)
    requires IsToken(name)
    ensures Tokens("@" + name, "", true) == ["@", name]
  {
    assert ("@" + name)[1..] == name && "" + name == name;
    PlainRest(name, "");
  }

  lemma PlainRest(s: string, current: string)
    requires forall i :: 0 <= i < |s| ==> TypeOf(s[i], false) == Normal
    ensures Tokens(s, current, false) == NonEmpty(current + s)
  {
    hide Tokens;
    PlainTokens(s, "", current);
    assert s + "" == s;
    NoMore(current + s);
  }

  lemma NoMore(current: string)
    ensures Tokens("", current, false) == NonEmpty(current)
  {
  }

  lemma OpsOfOne(name: string)
    requires IsToken(name)
    ensures OpsOf([name]).0 == [Child(name)] && OpsOf(["@", name]).0 == [Prop(name)]
  {
    assert TypeOf('@', false) != Normal && TypeOf('/', false) != Normal && TypeOf('\\', false) != Normal;
    assert name != "@" && name != "/" && name != "\\";
    assert [name][1..] == [] && OpsOf([]) == ([], true);
  }

  /** Letters of either case. */
  lemma CaseFolds(upper: string, lower: string)
    requires |upper| == |lower| == 1 && 'A' <= upper[0] <= 'Z' && lower[0] == Lower(upper[0])
    ensures upper != lower && DoesMatch(lower, upper) && IsToken(lower)
  {
    assert !IsMeta(lower[0]) && lower[0] != upper[0];
    LiteralMatches(lower, upper);
  }

  ghost function OneChild(root: DataTable, child: DataTable, name: string): Graph {
    map[root := Node("", [], [child], null), child := Node(name, [], [], root)]
  }

  lemma OneChildLinked(root: DataTable, child: DataTable, name: string)
    requires root != child
    ensures Linked(OneChild(root, child, name), map[root := 0, child := 1])
  {
    var g := OneChild(root, child, name);
    assert g[root].children[0] == child;
    assert g[child].parent == root && child in g[root].children;
  }

  /** A root with a child "A": creating "a" adds a second child, but following "a" leads to the first. */
  lemma CreatedButNotFound(root: DataTable, upper: DataTable, lower: DataTable)
    requires root != upper && root != lower && upper != lower
    ensures var g, depth := OneChild(root, upper, "A"), map[root := 0, upper := 1];
            var g', depth' := WithChild(g, root, lower, "a"), depth[lower := 1];
            && Linked(g, depth) && Walk(ByName, g, depth, root, OpsIn("a")) == None
            && Leads(ByName, g', depth', root, OpsIn("a"), TableAt(lower))
            && Leads(ByPattern, g', depth', root, OpsIn("a"), TableAt(upper))
  {
    hide Linked, Walk, OpsIn, DoesMatch, IsToken;
    var g, depth := OneChild(root, upper, "A"), map[root := 0, upper := 1];
    OneChildLinked(root, upper, "A");
    CaseFolds("A", "a");
    OneName("a");
    WalkOne(ByName, g, depth, root, Child("a"));
    FirstFits(ByName, g, [upper], "a", 1);
    ChildAdded(g, depth, root, lower, "a");
    var g', depth' := WithChild(g, root, lower, "a"), depth[lower := 1];
    assert depth' == depth[lower := depth[root] + 1];
    assert g'[root].children == [upper, lower];
    WalkOne(ByName, g', depth', root, Child("a"));
    WalkOne(ByPattern, g', depth', root, Child("a"));
    FirstFits(ByName, g', [upper, lower], "a", 1);
    FirstFits(ByPattern, g', [upper, lower], "a", 0);
  }

  /** A table with a property "X": a value set at "@x" is not the one that is read there. */
  lemma SetButNotRead(table: DataTable, x: Var, y: Var)
    ensures var g := map[table := Node("", [Property("X", x, None), Property("x", y, None)], [], null)];
            var depth := map[table := 0];
            && Leads(ByName, g, depth, table, OpsIn("@x"), PropAt(table, 1))
            && ValueAt(ByName, g, depth, table, OpsIn("@x")) == Some(y)
            && ValueAt(ByPattern, g, depth, table, OpsIn("@x")) == Some(x)
  {
    hide Walk, OpsIn, DoesMatch, IsToken;
    var props := [Property("X", x, None), Property("x", y, None)];
    var g, depth := map[table := Node("", props, [], null)], map[table := 0];
    assert LinkedAt(g, depth, table);
    hide Linked;
    CaseFolds("X", "x");
    OneName("x");
    assert "@" + "x" == "@x";
    WalkOne(ByName, g, depth, table, Prop("x"));
    WalkOne(ByPattern, g, depth, table, Prop("x"));
    assert Fits(ByPattern, "x", props[0].name) && !Fits(ByName, "x", props[0].name) && Fits(ByName, "x", props[1].name);
  }

  // ---- Absolute paths ------------------------------------------------------------------------------

  /** The place of a table among its siblings. */
  ghost function Place(tables: seq<DataTable>, n: DataTable): (k: nat)
    requires n in tables
    ensures k < |tables| && tables[k] == n
    ensures forall j :: 0 <= j < k ==> tables[j] != n
  {
    if tables[0] == n then 0 else 1 + Place(tables[1..], n)
  }

  /** No earlier sibling has a name that is the same but for case. */
  ghost predicate FirstOfName(g: Graph, depth: map<DataTable, nat>, n: DataTable)
    requires Linked(g, depth) && n in g
  {
    g[n].parent != null ==>
      var tables := g[g[n].parent].children;
      forall j :: 0 <= j < Place(tables, n) ==> !SameFolded(g[n].name, g[tables[j]].name)
  }

  /** ... of the table or any table above it. */
  ghost predicate Visible(g: Graph, depth: map<DataTable, nat>, n: DataTable)
    requires Linked(g, depth) && n in g
    decreases depth[n]
  {
    FirstOfName(g, depth, n) && (g[n].parent != null ==> Visible(g, depth, g[n].parent))
  }

  lemma StepToChild(g: Graph, depth: map<DataTable, nat>, n: DataTable)
    requires Linked(g, depth) && n in g && g[n].parent != null && Literal(g[n].name)
    ensures Step(ByPattern, g, depth, g[n].parent, Child(g[n].name)) == Some(TableAt(n)) <==> FirstOfName(g, depth, n)
  {
    hide Literal, DoesMatch, SameFolded;
    var name, tables := g[n].name, g[g[n].parent].children;
    ChildrenIn(g, depth, g[n].parent);
    assert LinkedAt(g, depth, n);
    MatchesItself(name);
    var k, at := FirstTable(ByPattern, g, tables, name), Place(tables, n);
    forall j | 0 <= j < |tables|
      ensures Fits(ByPattern, name, g[tables[j]].name) <==> SameFolded(name, g[tables[j]].name)
    {
      LiteralMatches(name, g[tables[j]].name);
    }
    assert Fits(ByPattern, name, g[tables[at]].name);
  }

  lemma {:induction false} NoPropAmongChildren(names: seq<string>)
    ensures !NamesProp(ChildOps(names))
  {
    if names != [] {
      assert ChildOps(names)[1..] == ChildOps(names[1..]);
      NoPropAmongChildren(names[1..]);
    }
  }

  lemma OneMoreChild(names: seq<string>, name: string)
    ensures ChildOps(names + [name]) == ChildOps(names) + [Child(name)]
  {
    ChildOpsSnoc(names, name, []);
    assert ChildOps(names + [name]) + [] == ChildOps(names + [name]) && [Child(name)] + [] == [Child(name)];
  }

  /** The names down to a table lead to it exactly if it and all above it are visible. */
  lemma {:induction false} NamesLeadBack(g: Graph, depth: map<DataTable, nat>, n: DataTable)
    requires Linked(g, depth) && n in g
    requires forall i :: 0 <= i < |Names(g, depth, n)| ==> Literal(Names(g, depth, n)[i])
    ensures Walk(ByPattern, g, depth, RootOf(g, depth, n), ChildOps(Names(g, depth, n))) == Some(TableAt(n)) <==>
            Visible(g, depth, n)
    decreases depth[n]
  {
    hide Literal, Step;
    var p := g[n].parent;
    if p != null {
      hide FirstOfName;
      var names, name, root := Names(g, depth, p), g[n].name, RootOf(g, depth, n);
      assert Names(g, depth, n)[|names|] == name;
      assert forall i :: 0 <= i < |names| ==> names[i] == Names(g, depth, n)[i];
      NamesLeadBack(g, depth, p);
      var ops := ChildOps(names);
      OneMoreChild(names, name);
      assert (ops + [Child(name)])[..|ops|] == ops && (ops + [Child(name)])[|ops|..] == [Child(name)];
      WalkSplit(ByPattern, g, depth, root, ops + [Child(name)], |ops|);
      StepToChild(g, depth, n);
      NoPropAmongChildren(names);
      var r := Walk(ByPattern, g, depth, root, ops);
      if r.Some? {
        PropIffNamed(ByPattern, g, depth, root, ops);
        var q := r.value.table;
        WalkOne(ByPattern, g, depth, q, Child(name));
        if Step(ByPattern, g, depth, q, Child(name)).Some? {
          DownStep(ByPattern, g, depth, q, Child(name));
        }
      }
    }
  }

  /** A name that a path carries unchanged and that as a pattern holds no wildcards. */
  predicate Plain(name: string) {
    IsToken(name) && Literal(name)
  }

  /** No earlier property of the table has a name that is the same but for case. */
  ghost predicate FirstProperty(g: Graph, n: DataTable, index: nat)
    requires n in g && index < |g[n].props|
  {
    forall j :: 0 <= j < index ==> !SameFolded(g[n].props[index].name, g[n].props[j].name)
  }

  lemma StepToProp(g: Graph, depth: map<DataTable, nat>, cur: DataTable, n: DataTable, index: nat)
    requires Linked(g, depth) && cur in g && n in g && index < |g[n].props| && Literal(g[n].props[index].name)
    ensures Step(ByPattern, g, depth, cur, Prop(g[n].props[index].name)) == Some(PropAt(n, index)) <==>
            cur == n && FirstProperty(g, n, index)
  {
    hide Literal, DoesMatch, SameFolded, Linked;
    var name, props := g[n].props[index].name, g[n].props;
    MatchesItself(name);
    forall j | 0 <= j < |props|
      ensures Fits(ByPattern, name, props[j].name) <==> SameFolded(name, props[j].name)
    {
      LiteralMatches(name, props[j].name);
    }
    assert Fits(ByPattern, name, props[index].name);
  }

  /** The names down to a table and one of its properties lead to it exactly if it and its table are. */
  lemma PropLeadsBack(g: Graph, depth: map<DataTable, nat>, n: DataTable, index: nat)
    requires Linked(g, depth) && n in g && index < |g[n].props| && Literal(g[n].props[index].name)
    requires forall i :: 0 <= i < |Names(g, depth, n)| ==> Literal(Names(g, depth, n)[i])
    ensures Walk(ByPattern, g, depth, RootOf(g, depth, n),
                 ChildOps(Names(g, depth, n)) + [Prop(g[n].props[index].name)]) == Some(PropAt(n, index)) <==>
            Visible(g, depth, n) && FirstProperty(g, n, index)
  {
    hide Literal, Step, Visible, Names, FirstProperty;
    var names, root, last := Names(g, depth, n), RootOf(g, depth, n), Prop(g[n].props[index].name);
    var ops := ChildOps(names);
    NamesLeadBack(g, depth, n);
    assert (ops + [last])[..|ops|] == ops && (ops + [last])[|ops|..] == [last];
    WalkSplit(ByPattern, g, depth, root, ops + [last], |ops|);
    NoPropAmongChildren(names);
    var r := Walk(ByPattern, g, depth, root, ops);
    if r.Some? {
      PropIffNamed(ByPattern, g, depth, root, ops);
      WalkOne(ByPattern, g, depth, r.value.table, last);
      StepToProp(g, depth, r.value.table, n, index);
    }
  }

  /** The absolute path of a table or property whose names are plain, parsed and followed from any table
      of its tree, leads to it exactly if neither the table nor one above it has an earlier sibling
      whose name is the same but for case, nor the property an earlier one. */
  lemma RootPathLeadsBack(g: Graph, depth: map<DataTable, nat>, m: DataTable, n: DataTable, index: Option<nat>)
    requires Linked(g, depth) && m in g && n in g && RootOf(g, depth, m) == RootOf(g, depth, n)
    requires index.Some? ==> index.value < |g[n].props| && Plain(g[n].props[index.value].name)
    requires forall i :: 0 <= i < |Names(g, depth, n)| ==> Plain(Names(g, depth, n)[i])
    ensures var prop := if index.None? then None else Some(g[n].props[index.value].name);
            Walk(ByPattern, g, depth, m, OpsIn(PathText(Names(g, depth, n), prop))) ==
            Some(if index.None? then TableAt(n) else PropAt(n, index.value)) <==>
            Visible(g, depth, n) && (index.Some? ==> FirstProperty(g, n, index.value))
  {
    hide Linked, IsToken, Literal, Tokens, OpsOf, Trimmed, Visible, FirstProperty, RootOf, Names;
    var prop := if index.None? then None else Some(g[n].props[index.value].name);
    var names := Names(g, depth, n);
    PathTextReads(names, prop);
    StepsAre(names, prop);
    var rest := if prop.None? then [] else [Prop(prop.value)];
    assert PathOps(names, prop)[0] == Root && PathOps(names, prop)[1..] == ChildOps(names) + rest;
    StepMeans(ByPattern, g, depth, m, Root);
    if index.None? {
      assert ChildOps(names) + [] == ChildOps(names);
      NamesLeadBack(g, depth, n);
    } else {
      PropLeadsBack(g, depth, n, index.value);
    }
  }
}
