/** Following a path through a tree of data tables, and creating what is missing on the way. */
module TableWalks {
  import opened Wrappers
  import opened Tables
  import opened TableObjects
  import opened TablePaths
  import opened FilePatterns

  // ---- A tree at one moment ------------------------------------------------------------------------

  datatype Node = Node(name: string, props: seq<Property>, children: seq<DataTable>, parent: DataTable?)

  type Graph = map<DataTable, Node>

  ghost function Snapshot(tables: set<DataTable>): Graph
    reads tables
  {
    map n | n in tables :: Node(n.name, n.props, n.children, n.parent)
  }

  /** Children and parents point to each other, and `depth` counts the parents above a table. */
  ghost predicate Linked(g: Graph, depth: map<DataTable, nat>) {
    depth.Keys == g.Keys && forall n :: n in g ==> LinkedAt(g, depth, n)
  }

  ghost predicate LinkedAt(g: Graph, depth: map<DataTable, nat>, n: DataTable) {
    && n in g && n in depth
    && (forall i :: 0 <= i < |g[n].children| ==> g[n].children[i] in g && g[g[n].children[i]].parent == n)
    && (g[n].parent == null ==> depth[n] == 0)
    && (g[n].parent != null ==>
          && g[n].parent in g && g[n].parent in depth && n in g[g[n].parent].children
          && depth[n] == depth[g[n].parent] + 1)
  }

  // ---- Where a path leads --------------------------------------------------------------------------

  /** How a name of a path is looked up: exactly where a path is created, as a file name pattern where
      it is followed. */
  datatype Lookup = ByName | ByPattern

  ghost predicate Fits(how: Lookup, wanted: string, name: string) {
    if how.ByName? then name == wanted else DoesMatch(wanted, name)
  }

  datatype Target = TableAt(table: DataTable) | PropAt(table: DataTable, index: nat)

  ghost function RootOf(g: Graph, depth: map<DataTable, nat>, n: DataTable): (r: DataTable)
    requires Linked(g, depth) && n in g
    ensures r in g && g[r].parent == null
    decreases depth[n]
  {
    if g[n].parent == null then n else RootOf(g, depth, g[n].parent)
  }

  /** The index of the first of some tables whose name fits. */
  ghost function FirstTable(how: Lookup, g: Graph, tables: seq<DataTable>, wanted: string): (k: nat)
    requires forall i :: 0 <= i < |tables| ==> tables[i] in g
    ensures k <= |tables|
    ensures k < |tables| ==> Fits(how, wanted, g[tables[k]].name)
    ensures forall i :: 0 <= i < k ==> !Fits(how, wanted, g[tables[i]].name)
  {
    if tables == [] || Fits(how, wanted, g[tables[0]].name) then 0 else 1 + FirstTable(how, g, tables[1..], wanted)
  }

  /** The index of the first of some properties whose name fits. */
  ghost function FirstProp(how: Lookup, props: seq<Property>, wanted: string): (k: nat)
    ensures k <= |props|
    ensures k < |props| ==> Fits(how, wanted, props[k].name)
    ensures forall i :: 0 <= i < k ==> !Fits(how, wanted, props[i].name)
  {
    if props == [] || Fits(how, wanted, props[0].name) then 0 else 1 + FirstProp(how, props[1..], wanted)
  }

  /** Where one operation leads. */
  ghost function Step(how: Lookup, g: Graph, depth: map<DataTable, nat>, cur: DataTable, op: PathOp)
    : (r: Option<Target>)
    requires Linked(g, depth) && cur in g
    ensures r.Some? ==> r.value.table in g
    ensures r.Some? && r.value.PropAt? ==> r.value.index < |g[r.value.table].props|
    ensures r.Some? ==> (r.value.PropAt? <==> op.Prop?)
  {
    match op
    case Root => Some(TableAt(RootOf(g, depth, cur)))
    case Parent => if g[cur].parent == null then None else Some(TableAt(g[cur].parent))
    case Current => Some(TableAt(cur))
    case Child(name) =>
      var k := FirstTable(how, g, g[cur].children, name);
      if k == |g[cur].children| then None else Some(TableAt(g[cur].children[k]))
    case Prop(name) =>
      var k := FirstProp(how, g[cur].props, name);
      if k == |g[cur].props| then None else Some(PropAt(cur, k))
  }

  /** The table or property that `ops` lead to from `cur`, if any. */
  ghost function Walk(how: Lookup, g: Graph, depth: map<DataTable, nat>, cur: DataTable, ops: seq<PathOp>)
    : (r: Option<Target>)
    requires Linked(g, depth) && cur in g
    ensures r.Some? ==> r.value.table in g
    ensures r.Some? && r.value.PropAt? ==> r.value.index < |g[r.value.table].props|
    decreases |ops|
  {
    if ops == [] then Some(TableAt(cur))
    else
      var next := Step(how, g, depth, cur, ops[0]);
      if next.Some? && next.value.TableAt? then Walk(how, g, depth, next.value.table, ops[1..]) else next
  }

  /** The path leads from `cur` to `target`. */
  ghost predicate Leads(how: Lookup, g: Graph, depth: map<DataTable, nat>, cur: DataTable, ops: seq<PathOp>,
                        target: Target) {
    Linked(g, depth) && cur in g && Walk(how, g, depth, cur, ops) == Some(target)
  }

  ghost predicate LeadsSomewhere(how: Lookup, g: Graph, depth: map<DataTable, nat>, cur: DataTable, ops: seq<PathOp>) {
    Linked(g, depth) && cur in g && Walk(how, g, depth, cur, ops).Some?
  }

  /** Whether a path never goes above the root, from a table at a depth. */
  function Legal(ops: seq<PathOp>, depth: nat): bool {
    if ops == [] then true
    else
      match ops[0]
      case Root => Legal(ops[1..], 0)
      case Parent => depth > 0 && Legal(ops[1..], depth - 1)
      case Current => Legal(ops[1..], depth)
      case Child(_) => Legal(ops[1..], depth + 1)
      case Prop(_) => true
  }

  /** The rest of a path from its next operation on. */
  lemma WalkNext(how: Lookup, g: Graph, depth: map<DataTable, nat>, cur: DataTable, ops: seq<PathOp>, i: nat)
    requires Linked(g, depth) && cur in g && i < |ops|
    ensures var next := Step(how, g, depth, cur, ops[i]);
            Walk(how, g, depth, cur, ops[i..]) ==
            if next.Some? && next.value.TableAt? then Walk(how, g, depth, next.value.table, ops[i + 1..]) else next
  {
    hide Step, Linked;
    assert ops[i..][0] == ops[i] && ops[i..][1..] == ops[i + 1..];
  }

  /** A walk in two parts. */
  lemma {:induction false} WalkSplit(how: Lookup, g: Graph, depth: map<DataTable, nat>, from: DataTable,
                                     ops: seq<PathOp>, i: nat)
    requires Linked(g, depth) && from in g && i <= |ops|
    ensures var r := Walk(how, g, depth, from, ops[..i]);
            Walk(how, g, depth, from, ops) ==
            if r.Some? && r.value.TableAt? then Walk(how, g, depth, r.value.table, ops[i..]) else r
    decreases i
  {
    hide Step, Linked;
    if i == 0 {
      assert ops[0..] == ops && ops[..0] == [];
    } else {
      assert ops[..i][0] == ops[0] && ops[..i][1..] == ops[1..][..i - 1] && ops[1..][i - 1..] == ops[i..];
      var next := Step(how, g, depth, from, ops[0]);
      if next.Some? && next.value.TableAt? {
        WalkSplit(how, g, depth, next.value.table, ops[1..], i - 1);
      }
    }
  }

  // ---- Growing trees -------------------------------------------------------------------------------

  /** Every table stays, with its name, its parent, its children and the names of its properties in
      their places; more of each may have been added. */
  ghost predicate Grown(g: Graph, g': Graph) {
    forall n :: n in g ==>
      && n in g'
      && g'[n].name == g[n].name && g'[n].parent == g[n].parent
      && g[n].children <= g'[n].children
      && |g[n].props| <= |g'[n].props|
      && forall i :: 0 <= i < |g[n].props| ==> g'[n].props[i].name == g[n].props[i].name
  }

  /** ... and the properties keep their values too. */
  ghost predicate Kept(g: Graph, g': Graph) {
    Grown(g, g') && forall n :: n in g ==> g[n].props <= g'[n].props
  }

  lemma {:induction false} SameRoot(g: Graph, g': Graph, depth: map<DataTable, nat>, depth': map<DataTable,
      nat>, n: DataTable)
    requires Linked(g, depth) && Linked(g', depth') && Grown(g, g') && n in g
    ensures RootOf(g', depth', n) == RootOf(g, depth, n)
    decreases depth[n]
  {
    if g[n].parent != null {
      SameRoot(g, g', depth, depth', g[n].parent);
    }
  }

  lemma {:induction false} SameDepth(g: Graph, g': Graph, depth: map<DataTable, nat>, depth': map<DataTable,
      nat>, n: DataTable)
    requires Linked(g, depth) && Linked(g', depth') && Grown(g, g') && n in g
    ensures depth'[n] == depth[n]
    decreases depth[n]
  {
    if g[n].parent != null {
      SameDepth(g, g', depth, depth', g[n].parent);
    }
  }

  lemma {:induction false} SameFirst(how: Lookup, g: Graph, g': Graph, tables: seq<DataTable>,
                                     tables': seq<DataTable>, name: string)
    requires (forall i :: 0 <= i < |tables| ==> tables[i] in g) && (forall i :: 0 <= i < |tables'| ==> tables'[i] in g')
    requires tables <= tables' && (forall i :: 0 <= i < |tables| ==> g'[tables[i]].name == g[tables[i]].name)
    requires FirstTable(how, g, tables, name) < |tables|
    ensures FirstTable(how, g', tables', name) == FirstTable(how, g, tables, name)
    decreases |tables|
  {
    if !Fits(how, name, g[tables[0]].name) {
      SameFirst(how, g, g', tables[1..], tables'[1..], name);
    }
  }

  lemma SameIndex(how: Lookup, props: seq<Property>, props': seq<Property>, name: string)
    requires |props| <= |props'| && forall i :: 0 <= i < |props| ==> props'[i].name == props[i].name
    requires FirstProp(how, props, name) < |props|
    ensures FirstProp(how, props', name) == FirstProp(how, props, name)
  {
    var k, k' := FirstProp(how, props, name), FirstProp(how, props', name);
    assert Fits(how, name, props'[k].name);
    assert forall j :: 0 <= j < k ==> !Fits(how, name, props'[j].name);
  }

  lemma StepGrown(how: Lookup, g: Graph, g': Graph, depth: map<DataTable, nat>, depth': map<DataTable, nat>,
                  cur: DataTable, op: PathOp)
    requires Linked(g, depth) && Linked(g', depth') && Grown(g, g') && cur in g && Step(how, g, depth, cur, op).Some?
    ensures cur in g' && Step(how, g', depth', cur, op) == Step(how, g, depth, cur, op)
  {
    match op {
      case Root => SameRoot(g, g', depth, depth', cur);
      case Parent =>
      case Current =>
      case Child(name) => SameFirst(how, g, g', g[cur].children, g'[cur].children, name);
      case Prop(name) => SameIndex(how, g[cur].props, g'[cur].props, name);
    }
  }

  /** What a path leads to stays so while the tree grows. */
  lemma {:induction false} WalkGrown(how: Lookup, g: Graph, g': Graph, depth: map<DataTable, nat>,
                                     depth': map<DataTable, nat>, cur: DataTable, ops: seq<PathOp>)
    requires Linked(g, depth) && Linked(g', depth') && Grown(g, g') && cur in g
    requires Walk(how, g, depth, cur, ops).Some?
    ensures cur in g' && Walk(how, g', depth', cur, ops) == Walk(how, g, depth, cur, ops)
    decreases |ops|
  {
    hide Step, Linked;
    if ops == [] {
      assert cur in g';
    } else {
      StepGrown(how, g, g', depth, depth', cur, ops[0]);
      var next := Step(how, g, depth, cur, ops[0]).value;
      if next.TableAt? {
        WalkGrown(how, g, g', depth, depth', next.table, ops[1..]);
      }
    }
  }

  // ---- Absolute paths --------------------------------------------------------------------------------

  /** The names from below the root down to a table. */
  ghost function Names(g: Graph, depth: map<DataTable, nat>, n: DataTable): seq<string>
    requires Linked(g, depth) && n in g
    decreases depth[n]
  {
    if g[n].parent == null then [] else Names(g, depth, g[n].parent) + [g[n].name]
  }

  function ChildOps(names: seq<string>): seq<PathOp> {
    if names == [] then [] else [Child(names[0])] + ChildOps(names[1..])
  }

  lemma {:induction false} ChildOpsSnoc(names: seq<string>, name: string, rest: seq<PathOp>)
    ensures ChildOps(names + [name]) + rest == ChildOps(names) + ([Child(name)] + rest)
  {
    if names == [] {
      assert (names + [name])[1..] == [];
      assert ChildOps(names + [name]) == [Child(name)];
    } else {
      assert (names + [name])[1..] == names[1..] + [name];
      ChildOpsSnoc(names[1..], name, rest);
      var a, b, c := [Child(names[0])], ChildOps(names[1..] + [name]), ChildOps(names[1..]);
      assert (a + b) + rest == a + (b + rest) && (a + c) + ([Child(name)] + rest) == a + (c + ([Child(name)] + rest));
    }
  }

  lemma {:induction false} StepsAre(names: seq<string>, prop: Option<string>)
    ensures Steps(names, prop) == ChildOps(names) + if prop.None? then [] else [Prop(prop.value)]
  {
    if names != [] {
      StepsAre(names[1..], prop);
    }
  }

  // ---- The path object -------------------------------------------------------------------------------

  method GetRoot(table: DataTable, ghost tables: set<DataTable>, ghost depth: map<DataTable,
      nat>) returns (cur: DataTable)
    requires table in tables && Linked(Snapshot(tables), depth)
    ensures cur == RootOf(Snapshot(tables), depth, table)
  {
    ghost var g := Snapshot(tables);
    cur := table;
    while cur.parent != null
      invariant cur in tables && RootOf(g, depth, cur) == RootOf(g, depth, table)
      decreases depth[cur]
    {
      assert g[cur].parent == cur.parent;
      cur := cur.parent;
    }
  }

  /** `GetChildIndex`: the first child of exactly that name. */
  method FindChild(table: DataTable, name: string, ghost tables: set<DataTable>, ghost depth: map<DataTable, nat>)
    returns (k: nat)
    requires table in tables && Linked(Snapshot(tables), depth)
    ensures Snapshot(tables)[table].children == table.children
    ensures k == FirstTable(ByName, Snapshot(tables), Snapshot(tables)[table].children, name)
  {
    ghost var g := Snapshot(tables);
    assert g[table].children == table.children;
    k := 0;
    while k < |table.children|
      invariant k <= |table.children|
      invariant forall i :: 0 <= i < k ==> g[table.children[i]].name != name
    {
      if table.children[k].name == name {
        break;
      }
      k := k + 1;
    }
    FirstFits(ByName, g, table.children, name, k);
  }

  /** The first child whose name the pattern matches. */
  method MatchChild(table: DataTable, pattern: string, ghost tables: set<DataTable>, ghost depth: map<DataTable, nat>)
    returns (k: nat)
    requires table in tables && Linked(Snapshot(tables), depth)
    ensures Snapshot(tables)[table].children == table.children
    ensures k == FirstTable(ByPattern, Snapshot(tables), Snapshot(tables)[table].children, pattern)
  {
    hide DoesMatch;
    ghost var g := Snapshot(tables);
    assert g[table].children == table.children;
    k := 0;
    while k < |table.children|
      invariant k <= |table.children|
      invariant forall i :: 0 <= i < k ==> !DoesMatch(pattern, g[table.children[i]].name)
    {
      var found := TestName(pattern, table.children[k].name);
      if found {
        break;
      }
      k := k + 1;
    }
    FirstFits(ByPattern, g, table.children, pattern, k);
  }

  /** The first property whose name the pattern matches. */
  method MatchProp(props: seq<Property>, pattern: string) returns (k: nat)
    ensures k == FirstProp(ByPattern, props, pattern)
  {
    hide DoesMatch;
    k := 0;
    while k < |props|
      invariant k <= |props|
      invariant forall i :: 0 <= i < k ==> !DoesMatch(pattern, props[i].name)
    {
      var found := TestName(pattern, props[k].name);
      if found {
        break;
      }
      k := k + 1;
    }
  }

  lemma NameIndex(props: seq<Property>, name: string)
    ensures FirstProp(ByName, props, name) == PropIndex(props, name)
  {
  }

  lemma FirstFits(how: Lookup, g: Graph, tables: seq<DataTable>, name: string, k: nat)
    requires (forall i :: 0 <= i < |tables| ==> tables[i] in g) && k <= |tables|
    requires forall i :: 0 <= i < k ==> !Fits(how, name, g[tables[i]].name)
    requires k < |tables| ==> Fits(how, name, g[tables[k]].name)
    ensures k == FirstTable(how, g, tables, name)
  {
  }

  /** `cDataTablePath`: the operations of a path and the result of following it last. */
  class DataTablePath {
    var ops: seq<PathOp>
    var result: Option<Target>

    constructor (path: string)
      ensures ops == OpsOf(Tokens(Trimmed(path), "", true)).0 && result == None
    {
      ops, result := [], None;
      new;
      var list, _ := ParsePath(path);
      ops := list;
    }

    /** One turn of the loop of `Evaluate`. */
    method EvaluateStep(cur: DataTable, op: PathOp, ghost tables: set<DataTable>, ghost depth: map<DataTable, nat>)
      returns (next: Option<Target>)
      requires cur in tables && Linked(Snapshot(tables), depth)
      ensures next == Step(ByPattern, Snapshot(tables), depth, cur, op)
    {
      hide Linked, RootOf, DoesMatch;
      ghost var g := Snapshot(tables);
      assert g[cur] == Node(cur.name, cur.props, cur.children, cur.parent);
      ChildrenIn(g, depth, cur);
      match op {
        case Root =>
          var root := GetRoot(cur, tables, depth);
          next := Some(TableAt(root));
        case Current =>
          next := Some(TableAt(cur));
        case Parent =>
          next := if cur.parent == null then None else Some(TableAt(cur.parent));
        case Child(pattern) =>
          var k := MatchChild(cur, pattern, tables, depth);
          next := if k == |cur.children| then None else Some(TableAt(cur.children[k]));
        case Prop(pattern) =>
          var k := MatchProp(cur.props, pattern);
          next := if k == |cur.props| then None else Some(PropAt(cur, k));
      }
    }

    /** Fails exactly when the path is empty or leads nowhere. */
    method Evaluate(table: DataTable, ghost tables: set<DataTable>, ghost depth: map<DataTable, nat>) returns (ok: bool)
      requires table in tables && Linked(Snapshot(tables), depth)
      modifies this`result
      ensures result == (if ops == [] then None else Walk(ByPattern, Snapshot(tables), depth, table, ops))
      ensures ok <==> result.Some?
    {
      hide Linked, RootOf, Walk, Step;
      ghost var g := Snapshot(tables);
      result := None;
      if ops == [] {
        return false;
      }
      var cur, i := table, 0;
      assert ops[0..] == ops && ops[|ops|..] == [];
      while i < |ops|
        invariant i <= |ops| && cur in tables && result == None
        invariant Walk(ByPattern, g, depth, cur, ops[i..]) == Walk(ByPattern, g, depth, table, ops)
      {
        WalkNext(ByPattern, g, depth, cur, ops, i);
        var next := EvaluateStep(cur, ops[i], tables, depth);
        if next.None? {
          return false;
        }
        if next.value.PropAt? {
          result := next;
          return true;
        }
        cur := next.value.table;
        i := i + 1;
      }
      WalkNothing(ByPattern, g, depth, cur);
      result := Some(TableAt(cur));
      ok := true;
    }

    /** One turn of the loop of `CreatePathInDataTable`. */
    method CreateStep(cur: DataTable, op: PathOp, completelyNew: bool, ghost tables: set<DataTable>,
                      ghost depth: map<DataTable, nat>)
      returns (next: Option<Target>, ghost tables': set<DataTable>, ghost depth': map<DataTable, nat>)
      requires cur in tables && Linked(Snapshot(tables), depth)
      modifies tables
      ensures tables <= tables' && fresh(tables' - tables)
      ensures next.None? ==> op.Parent? && old(cur.parent) == null
      ensures next.None? ==> tables' == tables && depth' == depth && Snapshot(tables) == old(Snapshot(tables))
      ensures next.Some? && next.value.TableAt? ==>
        Makes(completelyNew, Place(old(Snapshot(tables)), depth, cur), op,
              Place(Snapshot(tables'), depth', next.value.table))
      ensures next.Some? && next.value.PropAt? ==>
        && next.value.table == cur
        && MakesProp(Place(old(Snapshot(tables)), depth, cur), op, Place(Snapshot(tables'), depth', cur),
                     next.value.index)
    {
      hide Linked, RootOf;
      ghost var g := Snapshot(tables);
      tables', depth' := tables, depth;
      ChildrenIn(g, depth, cur);
      assert g[cur] == Node(cur.name, cur.props, cur.children, cur.parent);
      match op {
        case Root =>
          var root := GetRoot(cur, tables, depth);
          next := Some(TableAt(root));
        case Current =>
          next := Some(TableAt(cur));
        case Parent =>
          next := if cur.parent == null then None else Some(TableAt(cur.parent));
        case Child(name) =>
          if !completelyNew {
            var k := FindChild(cur, name, tables, depth);
            if k < |cur.children| {
              next := Some(TableAt(cur.children[k]));
              return;
            }
          }
          var child;
          child, tables', depth' := CreateChild(cur, name, tables, depth);
          next := Some(TableAt(child));
        case Prop(name) =>
          var k := PropIndex(cur.props, name);
          if k == |cur.props| {
            CreateProp(cur, name, tables, depth);
          }
          next := Some(PropAt(cur, k));
      }
    }

    method CreateChild(cur: DataTable, name: string, ghost tables: set<DataTable>, ghost depth: map<DataTable, nat>)
      returns (child: DataTable, ghost tables': set<DataTable>, ghost depth': map<DataTable, nat>)
      requires cur in tables && Linked(Snapshot(tables), depth)
      modifies cur
      ensures tables' == tables + {child} && fresh(child) && child !in tables && cur in depth
      ensures Snapshot(tables') == WithChild(old(Snapshot(tables)), cur, child, name)
      ensures depth' == depth[child := depth[cur] + 1] && Linked(Snapshot(tables'), depth')
    {
      hide Linked, RootOf;
      ghost var g := Snapshot(tables);
      ChildrenIn(g, depth, cur);
      child := new DataTable(name);
      cur.PushChild(child);
      tables', depth' := tables + {child}, depth[child := depth[cur] + 1];
      assert Snapshot(tables') == WithChild(g, cur, child, name);
      LinkedChild(g, depth, cur, child, name);
    }

    method CreateProp(cur: DataTable, name: string, ghost tables: set<DataTable>, ghost depth: map<DataTable, nat>)
      requires cur in tables && Linked(Snapshot(tables), depth)
      modifies cur`props
      ensures Snapshot(tables) == WithProp(old(Snapshot(tables)), cur, name) && Linked(Snapshot(tables), depth)
    {
      hide Linked, RootOf;
      ghost var g := Snapshot(tables);
      cur.props := cur.props + [Property(name, Str(""), None)];
      assert Snapshot(tables) == WithProp(g, cur, name);
      LinkedProp(g, depth, cur, name);
    }

    /** Creates the tables and the property that a path needs, each as a child or property at the end:
        what is missing, or, when asked for, a new table at every step. `trace` records what was there
        after each operation; nothing else is created. It fails exactly when the path is empty or goes
        above the root. When it succeeds in the first mode, looking the names up exactly leads to what it
        returned, and if the names were there before, nothing at all has changed. Whether `Evaluate` then
        leads there too is another matter, as it takes the names for patterns. */
    method CreatePathInDataTable(table: DataTable, completelyNew: bool, ghost tables: set<DataTable>,
                                 ghost depth: map<DataTable, nat>)
      returns (ok: bool, ghost tables': set<DataTable>, ghost depth': map<DataTable, nat>, ghost trace: seq<Place>)
      requires table in tables && Linked(Snapshot(tables), depth)
      modifies this`result, tables
      ensures tables <= tables' && fresh(tables' - tables) && Linked(Snapshot(tables'), depth')
      ensures Kept(old(Snapshot(tables)), Snapshot(tables'))
      ensures ok <==> ops != [] && LegalAt(ops, depth, table)
      ensures ok <==> result.Some?
      ensures Trace(completelyNew, trace, ops) && trace[0] == Place(old(Snapshot(tables)), depth, table)
      ensures ok ==>
        Creates(completelyNew, trace, ops, Place(Snapshot(tables'), depth', result.value.table), result.value)
      ensures !ok ==> trace[|trace| - 1].g == Snapshot(tables')
      ensures ok && !completelyNew ==> Leads(ByName, Snapshot(tables'), depth', table, ops, result.value)
      ensures !completelyNew && old(LeadsSomewhere(ByName, Snapshot(tables), depth, table, ops)) ==>
                tables' == tables && depth' == depth && Snapshot(tables) == old(Snapshot(tables))
    {
      ghost var g0 := Snapshot(tables);
      SnapshotKeys(tables);
      hide *;
      tables', depth', trace := tables, depth, [Place(g0, depth, table)];
      result := None;
      var cur, i := table, 0;
      TraceStarts(completelyNew, trace, ops);
      if ops == [] {
        KeptSelf(g0);
        return false, tables', depth', trace;
      }
      while i < |ops|
        invariant i <= |ops| && |trace| == i + 1 && cur in tables' && result == None
        invariant tables <= tables' && fresh(tables' - tables)
        invariant Trace(completelyNew, trace, ops) && trace[0] == Place(g0, depth, table)
        invariant trace[i] == Place(Snapshot(tables'), depth', cur)
      {
        TraceAt(completelyNew, trace, ops);
        SnapshotAt(tables', cur);
        var next;
        next, tables', depth' := CreateStep(cur, ops[i], completelyNew, tables', depth');
        SnapshotKeys(tables');
        if next.None? {
          TraceStops(completelyNew, trace, ops);
          return false, tables', depth', trace;
        }
        ghost var q := Place(Snapshot(tables'), depth', next.value.table);
        if next.value.PropAt? {
          EndsWithProp(completelyNew, trace, ops, q, next.value.index);
          CreatesFacts(completelyNew, trace, ops, q, next.value);
          result := next;
          return true, tables', depth', trace;
        }
        TraceGrows(completelyNew, trace, ops, q);
        trace := trace + [q];
        TraceAt(completelyNew, trace, ops);
        cur := next.value.table;
        i := i + 1;
      }
      EndsWithTable(completelyNew, trace, ops);
      CreatesFacts(completelyNew, trace, ops, trace[i], TableAt(cur));
      SnapshotKeys(tables');
      result := Some(TableAt(cur));
      ok := true;
    }
  }

  // ---- Creation as steps -----------------------------------------------------------------------------

  /** A tree while a path is created, and where the creation is. */
  datatype Place = Place(g: Graph, depth: map<DataTable, nat>, cur: DataTable)

  ghost predicate PlaceOK(p: Place) {
    Linked(p.g, p.depth) && p.cur in p.g
  }

  /** What one operation does that names no property: it goes where its exact name leads, or to a new
      table, the last child of the present one. */
  ghost predicate Makes(allNew: bool, p: Place, op: PathOp, q: Place) {
    && PlaceOK(p) && PlaceOK(q) && !op.Prop? && p.cur in p.depth
    && var next := Step(ByName, p.g, p.depth, p.cur, op);
       if op.Child? && (allNew || next.None?) then
         && q.cur !in p.g && q.g == WithChild(p.g, p.cur, q.cur, op.name)
         && q.depth == p.depth[q.cur := p.depth[p.cur] + 1]
       else
         next == Some(TableAt(q.cur)) && q.g == p.g && q.depth == p.depth
  }

  /** What the naming of a property does: it is at index `k` afterwards, at the end if it is new. */
  ghost predicate MakesProp(p: Place, op: PathOp, q: Place, k: nat) {
    && PlaceOK(p) && PlaceOK(q) && op.Prop? && q.cur == p.cur && q.depth == p.depth
    && k == PropIndex(p.g[p.cur].props, op.name)
    && q.g == if k < |p.g[p.cur].props| then p.g else WithProp(p.g, p.cur, op.name)
  }

  /** The places after each of the first operations. */
  ghost predicate Trace(allNew: bool, trace: seq<Place>, ops: seq<PathOp>) {
    && 0 < |trace| <= |ops| + 1 && PlaceOK(trace[0])
    && forall i :: 0 <= i < |trace| - 1 ==> Makes(allNew, trace[i], ops[i], trace[i + 1])
  }

  /** The whole creation, ending at `end` with `target`. */
  ghost predicate Creates(allNew: bool, trace: seq<Place>, ops: seq<PathOp>, end: Place, target: Target) {
    && Trace(allNew, trace, ops)
    && var n := |trace| - 1;
       && target.table == end.cur
       && if target.TableAt? then n == |ops| && end == trace[n]
          else n < |ops| && MakesProp(trace[n], ops[n], end, target.index)
  }

  lemma MakesFacts(allNew: bool, p: Place, op: PathOp, q: Place)
    requires Makes(allNew, p, op, q)
    ensures Kept(p.g, q.g) && p.cur in q.g && q.cur in q.depth
    ensures DepthStep(op, p.depth[p.cur], q.depth[q.cur])
    ensures !allNew ==> Step(ByName, q.g, q.depth, p.cur, op) == Some(TableAt(q.cur))
  {
    hide Linked, RootOf;
    KeptSelf(p.g);
    ChildrenIn(q.g, q.depth, q.cur);
    var next := Step(ByName, p.g, p.depth, p.cur, op);
    if op.Child? && (allNew || next.None?) {
      KeptChild(p.g, p.cur, q.cur, op.name);
      if !allNew {
        ChildAdded(p.g, p.depth, p.cur, q.cur, op.name);
      }
    } else {
      StepDepth(ByName, p.g, p.depth, p.cur, op, q.cur);
    }
  }

  lemma MakesPropFacts(p: Place, op: PathOp, q: Place, k: nat)
    requires MakesProp(p, op, q, k)
    ensures Kept(p.g, q.g) && p.cur in q.g
    ensures Step(ByName, q.g, q.depth, p.cur, op) == Some(PropAt(p.cur, k))
  {
    hide Linked, RootOf;
    KeptSelf(p.g);
    NameIndex(p.g[p.cur].props, op.name);
    if k == |p.g[p.cur].props| {
      PropAdded(p.g, p.depth, p.cur, op.name);
    }
  }

  lemma PlaceParts(p: Place)
    requires PlaceOK(p)
    ensures Linked(p.g, p.depth) && p.cur in p.g
  {
  }

  lemma SnapshotKeys(tables: set<DataTable>)
    ensures Snapshot(tables).Keys == tables
  {
  }

  lemma EndsWithProp(allNew: bool, trace: seq<Place>, ops: seq<PathOp>, end: Place, k: nat)
    requires Trace(allNew, trace, ops) && |trace| <= |ops| && MakesProp(trace[|trace| - 1], ops[|trace| - 1], end, k)
    ensures Creates(allNew, trace, ops, end, PropAt(end.cur, k))
  {
  }

  lemma EndsWithTable(allNew: bool, trace: seq<Place>, ops: seq<PathOp>)
    requires Trace(allNew, trace, ops) && |trace| == |ops| + 1
    ensures Creates(allNew, trace, ops, trace[|ops|], TableAt(trace[|ops|].cur))
  {
  }

  lemma TraceStarts(allNew: bool, trace: seq<Place>, ops: seq<PathOp>)
    requires |trace| == 1 && Linked(trace[0].g, trace[0].depth) && trace[0].cur in trace[0].g
    ensures Trace(allNew, trace, ops)
  {
  }

  lemma TraceAt(allNew: bool, trace: seq<Place>, ops: seq<PathOp>)
    requires Trace(allNew, trace, ops)
    ensures var p := trace[|trace| - 1]; Linked(p.g, p.depth) && p.cur in p.g
  {
    if |trace| > 1 {
      assert Makes(allNew, trace[|trace| - 2], ops[|trace| - 2], trace[|trace| - 1]);
    }
  }

  lemma TraceGrows(allNew: bool, trace: seq<Place>, ops: seq<PathOp>, q: Place)
    requires Trace(allNew, trace, ops) && |trace| <= |ops| && Makes(allNew, trace[|trace| - 1], ops[|trace| - 1], q)
    ensures Trace(allNew, trace + [q], ops)
  {
    hide Makes;
  }

  /** What is known after the first `i` operations. */
  lemma {:induction false} TraceFacts(allNew: bool, trace: seq<Place>, ops: seq<PathOp>, i: nat)
    requires Trace(allNew, trace, ops) && i < |trace|
    ensures var a, p := trace[0], trace[i];
            && PlaceOK(p) && Kept(a.g, p.g)
            && (LegalAt(ops, a.depth, a.cur) <==> LegalAt(ops[i..], p.depth, p.cur))
            && (!allNew ==> Leads(ByName, p.g, p.depth, a.cur, ops[..i], TableAt(p.cur)))
    decreases i
  {
    hide Linked, RootOf, Step, Walk, Kept, Legal, Makes;
    var a := trace[0];
    if i == 0 {
      KeptSelf(a.g);
      WalkNothing(ByName, a.g, a.depth, a.cur);
      assert ops[0..] == ops && ops[..0] == [];
    } else {
      var p, op, q := trace[i - 1], ops[i - 1], trace[i];
      TraceFacts(allNew, trace, ops, i - 1);
      assert Makes(allNew, p, op, q);
      MakesOK(allNew, p, op, q);
      MakesFacts(allNew, p, op, q);
      KeptTwice(a.g, p.g, q.g);
      LegalFirst(ops[i - 1..], p.depth[p.cur], q.depth[q.cur]);
      assert ops[i - 1..][1..] == ops[i..] && ops[i - 1..][0] == op;
      if !allNew {
        OneFurther(p, q, a.cur, ops, i, TableAt(q.cur));
      }
    }
  }

  lemma MakesOK(allNew: bool, p: Place, op: PathOp, q: Place)
    requires Makes(allNew, p, op, q)
    ensures PlaceOK(p) && PlaceOK(q) && p.cur in p.depth && !op.Prop?
  {
  }

  /** A path that leads to `p` leads one operation further in a tree that has grown. */
  lemma OneFurther(p: Place, q: Place, from: DataTable, ops: seq<PathOp>, i: nat, target: Target)
    requires PlaceOK(p) && PlaceOK(q) && Kept(p.g, q.g) && 0 < i <= |ops| && p.cur in q.g
    requires Leads(ByName, p.g, p.depth, from, ops[..i - 1], TableAt(p.cur))
    requires Step(ByName, q.g, q.depth, p.cur, ops[i - 1]) == Some(target)
    ensures Leads(ByName, q.g, q.depth, from, ops[..i], target)
  {
    hide Linked, RootOf, Step, Walk, Kept, Grown;
    KeptGrows(p.g, q.g);
    WalkGrown(ByName, p.g, q.g, p.depth, q.depth, from, ops[..i - 1]);
    WalkOne(ByName, q.g, q.depth, p.cur, ops[i - 1]);
    assert ops[..i][..i - 1] == ops[..i - 1] && ops[..i][i - 1..] == [ops[i - 1]];
    WalkSplit(ByName, q.g, q.depth, from, ops[..i], i - 1);
  }

  /** When the exact names lead somewhere, nothing is created on the way. */
  lemma {:induction false} TraceSame(trace: seq<Place>, ops: seq<PathOp>, i: nat)
    requires Trace(false, trace, ops) && i < |trace|
    requires LeadsSomewhere(ByName, trace[0].g, trace[0].depth, trace[0].cur, ops)
    ensures trace[i].g == trace[0].g && trace[i].depth == trace[0].depth
    decreases i
  {
    hide Linked, RootOf, Walk, Step;
    if i > 0 {
      TraceSame(trace, ops, i - 1);
      TraceFacts(false, trace, ops, i - 1);
      var p := trace[i - 1];
      FirstStep(ByName, p.g, p.depth, trace[0].cur, p.cur, ops, i - 1);
      WalkOne(ByName, p.g, p.depth, p.cur, ops[i - 1]);
      assert Makes(false, p, ops[i - 1], trace[i]);
    }
  }

  /** A creation that cannot go on: the path goes above the root, and leads nowhere. */
  lemma TraceStops(allNew: bool, trace: seq<Place>, ops: seq<PathOp>)
    requires Trace(allNew, trace, ops) && |trace| <= |ops|
    requires var p := trace[|trace| - 1];
             p.cur in p.g && ops[|trace| - 1].Parent? && p.g[p.cur].parent == null
    ensures Kept(trace[0].g, trace[|trace| - 1].g)
    ensures !LegalAt(ops, trace[0].depth, trace[0].cur)
    ensures !allNew && LeadsSomewhere(ByName, trace[0].g, trace[0].depth, trace[0].cur, ops) ==>
      trace[|trace| - 1].g == trace[0].g && trace[|trace| - 1].depth == trace[0].depth
  {
    hide Kept, Makes, PlaceOK;
    var n := |trace| - 1;
    TraceFacts(allNew, trace, ops, n);
    hide Trace;
    PlaceParts(trace[n]);
    StoppedAtRoot(trace[n].g, trace[n].depth, trace[n].cur, ops, n);
    if !allNew && LeadsSomewhere(ByName, trace[0].g, trace[0].depth, trace[0].cur, ops) {
      TraceSame(trace, ops, n);
    }
  }

  /** What a creation that succeeds has done. */
  lemma CreatesFacts(allNew: bool, trace: seq<Place>, ops: seq<PathOp>, end: Place, target: Target)
    requires Creates(allNew, trace, ops, end, target)
    ensures var a := trace[0];
            && Linked(end.g, end.depth) && end.cur in end.g && Kept(a.g, end.g) && LegalAt(ops, a.depth, a.cur)
            && (!allNew ==> Leads(ByName, end.g, end.depth, a.cur, ops, target))
            && (!allNew && LeadsSomewhere(ByName, a.g, a.depth, a.cur, ops) ==>
                  end.g == a.g && end.depth == a.depth)
  {
    hide Kept, Walk, Step, Linked, RootOf, Legal, Makes, MakesProp;
    var n, a := |trace| - 1, trace[0];
    TraceFacts(allNew, trace, ops, n);
    ChildrenIn(trace[n].g, trace[n].depth, trace[n].cur);
    if !allNew && LeadsSomewhere(ByName, a.g, a.depth, a.cur, ops) {
      TraceSame(trace, ops, n);
    }
    assert ops[..|ops|] == ops;
    if target.TableAt? {
      EndLegal(ops, end.depth, end.cur);
    } else {
      PropEnds(allNew, trace[n], a, ops, n, end, target.index);
    }
  }

  /** A creation that ends with a property. */
  lemma PropEnds(allNew: bool, p: Place, a: Place, ops: seq<PathOp>, n: nat, end: Place, k: nat)
    requires n < |ops| && MakesProp(p, ops[n], end, k) && Kept(a.g, p.g)
    requires !allNew ==> Leads(ByName, p.g, p.depth, a.cur, ops[..n], TableAt(p.cur))
    ensures PlaceOK(end) && end.cur == p.cur && Kept(a.g, end.g) && LegalAt(ops[n..], p.depth, p.cur)
    ensures !allNew ==> Leads(ByName, end.g, end.depth, a.cur, ops, PropAt(p.cur, k))
    ensures !allNew && LeadsSomewhere(ByName, p.g, p.depth, a.cur, ops) ==> end.g == p.g && end.depth == p.depth
  {
    hide Linked, RootOf, Walk, Step, Kept;
    ChildrenIn(p.g, p.depth, p.cur);
    MakesPropFacts(p, ops[n], end, k);
    KeptTwice(a.g, p.g, end.g);
    if !allNew {
      OneFurther(p, end, a.cur, ops, n + 1, PropAt(p.cur, k));
      WalkSplit(ByName, end.g, end.depth, a.cur, ops, n + 1);
      if LeadsSomewhere(ByName, p.g, p.depth, a.cur, ops) {
        FirstStep(ByName, p.g, p.depth, a.cur, p.cur, ops, n);
        WalkOne(ByName, p.g, p.depth, p.cur, ops[n]);
        PropThere(p, ops[n]);
      }
    }
  }

  lemma PropThere(p: Place, op: PathOp)
    requires PlaceOK(p) && op.Prop? && Step(ByName, p.g, p.depth, p.cur, op).Some?
    ensures PropIndex(p.g[p.cur].props, op.name) < |p.g[p.cur].props|
  {
    NameIndex(p.g[p.cur].props, op.name);
  }

  lemma EndLegal(ops: seq<PathOp>, depth: map<DataTable, nat>, cur: DataTable)
    requires cur in depth
    ensures LegalAt(ops[|ops|..], depth, cur)
  {
  }

  /** The path does not go above the root from `cur`. */
  ghost predicate LegalAt(ops: seq<PathOp>, depth: map<DataTable, nat>, cur: DataTable) {
    cur in depth && Legal(ops, depth[cur])
  }

  lemma SnapshotAt(tables: set<DataTable>, n: DataTable)
    ensures n in Snapshot(tables) <==> n in tables
    ensures n in tables ==> Snapshot(tables)[n].parent == n.parent
  {
  }

  /** If the whole path leads somewhere, so does its next step. */
  lemma FirstStep(how: Lookup, g: Graph, depth: map<DataTable, nat>, from: DataTable, cur: DataTable,
                  ops: seq<PathOp>, i: nat)
    requires i < |ops| && Leads(how, g, depth, from, ops[..i], TableAt(cur))
    ensures cur in g && cur in depth
    ensures LeadsSomewhere(how, g, depth, from, ops) ==> LeadsSomewhere(how, g, depth, cur, [ops[i]])
  {
    hide RootOf;
    WalkSplit(how, g, depth, from, ops, i);
    WalkOne(how, g, depth, cur, ops[i]);
    assert ops[i..][0] == ops[i];
  }

  /** Only a step above the root stops the creation of a path. */
  lemma StoppedAtRoot(g: Graph, depth: map<DataTable, nat>, cur: DataTable, ops: seq<PathOp>, i: nat)
    requires Linked(g, depth) && cur in g && i < |ops| && ops[i].Parent? && g[cur].parent == null
    ensures !LegalAt(ops[i..], depth, cur)
  {
  }

  /** How a step changes the depth. */
  predicate DepthStep(op: PathOp, before: nat, after: nat) {
    match op
    case Root => after == 0
    case Parent => after + 1 == before
    case Current => after == before
    case Child(_) => after == before + 1
    case Prop(_) => false
  }

  lemma StepDepth(how: Lookup, g: Graph, depth: map<DataTable, nat>, cur: DataTable, op: PathOp, next: DataTable)
    requires Linked(g, depth) && cur in g && Walk(how, g, depth, cur, [op]) == Some(TableAt(next))
    ensures cur in depth && next in g && next in depth && DepthStep(op, depth[cur], depth[next])
  {
    WalkOne(how, g, depth, cur, op);
    assert LinkedAt(g, depth, cur) && LinkedAt(g, depth, next);
    hide Linked, RootOf, Walk;
  }

  lemma LegalFirst(ops: seq<PathOp>, before: nat, after: nat)
    requires ops != [] && DepthStep(ops[0], before, after)
    ensures Legal(ops[1..], after) == Legal(ops, before)
  {
  }

  lemma KeptGrows(g: Graph, g': Graph)
    requires Kept(g, g')
    ensures Grown(g, g')
  {
  }

  lemma KeptSelf(g: Graph)
    ensures Kept(g, g)
  {
  }

  lemma KeptTwice(a: Graph, b: Graph, c: Graph)
    requires Kept(a, b) && Kept(b, c)
    ensures Kept(a, c)
  {
  }

  /** A walk of one step. */
  lemma WalkOne(how: Lookup, g: Graph, depth: map<DataTable, nat>, cur: DataTable, op: PathOp)
    requires Linked(g, depth) && cur in g
    ensures Walk(how, g, depth, cur, []) == Some(TableAt(cur))
    ensures Walk(how, g, depth, cur, [op]) == Step(how, g, depth, cur, op)
  {
    assert [op][1..] == [];
  }

  lemma WalkNothing(how: Lookup, g: Graph, depth: map<DataTable, nat>, cur: DataTable)
    requires Linked(g, depth) && cur in g
    ensures Walk(how, g, depth, cur, []) == Some(TableAt(cur))
  {
  }

  ghost function WithChild(g: Graph, cur: DataTable, child: DataTable, name: string): Graph
    requires cur in g
  {
    g[cur := g[cur].(children := g[cur].children + [child])][child := Node(name, [], [], cur)]
  }

  lemma ChildAdded(g: Graph, depth: map<DataTable, nat>, cur: DataTable, child: DataTable, name: string)
    requires Linked(g, depth) && cur in g && child !in g
    requires FirstTable(ByName, g, g[cur].children, name) == |g[cur].children|
    ensures var g' := WithChild(g, cur, child, name);
            && Linked(g', depth[child := depth[cur] + 1]) && Kept(g, g')
            && FirstTable(ByName, g', g'[cur].children, name) == |g[cur].children|
  {
    var g' := WithChild(g, cur, child, name);
    ChildrenIn(g, depth, cur);
    LinkedChild(g, depth, cur, child, name);
    KeptChild(g, cur, child, name);
    hide Linked, Kept;
    FirstFits(ByName, g', g'[cur].children, name, |g[cur].children|);
  }

  lemma KeptChild(g: Graph, cur: DataTable, child: DataTable, name: string)
    requires cur in g && child !in g
    ensures Kept(g, WithChild(g, cur, child, name))
  {
  }

  lemma LinkedChild(g: Graph, depth: map<DataTable, nat>, cur: DataTable, child: DataTable, name: string)
    requires Linked(g, depth) && cur in g && child !in g
    ensures Linked(WithChild(g, cur, child, name), depth[child := depth[cur] + 1])
  {
    var g', depth' := WithChild(g, cur, child, name), depth[child := depth[cur] + 1];
    assert LinkedAt(g, depth, cur);
    assert g'[cur].children[|g[cur].children|] == child;
    forall n | n in g' ensures LinkedAt(g', depth', n) {
      if n != child {
        assert LinkedAt(g, depth, n);
      }
    }
  }

  ghost function WithProp(g: Graph, cur: DataTable, name: string): Graph
    requires cur in g
  {
    g[cur := g[cur].(props := g[cur].props + [Property(name, Str(""), None)])]
  }

  lemma KeptProp(g: Graph, cur: DataTable, name: string)
    requires cur in g
    ensures Kept(g, WithProp(g, cur, name))
  {
  }

  /** Links do not depend on properties. */
  lemma SameLinks(g: Graph, g': Graph, depth: map<DataTable, nat>, n: DataTable)
    requires LinkedAt(g, depth, n) && g'.Keys == g.Keys
    requires forall m :: m in g ==> g'[m].children == g[m].children && g'[m].parent == g[m].parent
    ensures LinkedAt(g', depth, n)
  {
  }

  lemma LinkedProp(g: Graph, depth: map<DataTable, nat>, cur: DataTable, name: string)
    requires Linked(g, depth) && cur in g
    ensures Linked(WithProp(g, cur, name), depth)
  {
    var g' := WithProp(g, cur, name);
    forall n | n in g ensures LinkedAt(g', depth, n) {
      assert LinkedAt(g, depth, n);
      SameLinks(g, g', depth, n);
    }
  }

  lemma PropAdded(g: Graph, depth: map<DataTable, nat>, cur: DataTable, name: string)
    requires Linked(g, depth) && cur in g && FirstProp(ByName, g[cur].props, name) == |g[cur].props|
    ensures var g' := WithProp(g, cur, name);
            Linked(g', depth) && Kept(g, g') && FirstProp(ByName, g'[cur].props, name) == |g[cur].props|
  {
    var g' := WithProp(g, cur, name);
    var k := |g[cur].props|;
    LinkedProp(g, depth, cur, name);
    KeptProp(g, cur, name);
    hide Linked, Kept;
    assert g'[cur].props[k].name == name;
    assert forall i :: 0 <= i < k ==> g'[cur].props[i].name != name;
  }

  lemma ChildrenIn(g: Graph, depth: map<DataTable, nat>, n: DataTable)
    requires Linked(g, depth) && n in g
    ensures (forall i :: 0 <= i < |g[n].children| ==> g[n].children[i] in g) && (g[n].parent != null ==>
        g[n].parent in g)
    ensures n in depth
  {
    assert LinkedAt(g, depth, n);
  }

  // ---- Writing absolute paths ------------------------------------------------------------------------

  lemma {:induction false} SlashedSnoc(names: seq<string>, name: string, tail: string)
    ensures Slashed(names + [name]) + tail == Slashed(names) + ("/" + name + tail)
  {
    if names == [] {
      assert (names + [name])[1..] == [];
      assert Slashed(names + [name]) == "/" + name + "";
    } else {
      assert (names + [name])[1..] == names[1..] + [name];
      SlashedSnoc(names[1..], name, tail);
      var a, b, c := "/" + names[0], Slashed(names[1..] + [name]), Slashed(names[1..]);
      assert (a + b) + tail == a + (b + tail) && (a + c) + ("/" + name + tail) == a + (c + ("/" + name + tail));
    }
  }

  /** `GetRootPathToDataTable`: empty if there is no such property or it has no name. */
  method GetRootPathToDataTable(table: DataTable, index: Option<nat>, ghost tables: set<DataTable>,
                                ghost depth: map<DataTable, nat>) returns (path: string)
    requires table in tables && Linked(Snapshot(tables), depth)
    ensures var named := index.None? || (index.value < |table.props| && table.props[index.value].name != "");
            path == if !named then ""
                    else PathText(Names(Snapshot(tables), depth, table),
                                  if index.None? then None else Some(table.props[index.value].name))
  {
    hide Linked;
    ghost var g := Snapshot(tables);
    path := "";
    ghost var prop: Option<string> := None;
    if index.Some? {
      path := "@" + if index.value < |table.props| then table.props[index.value].name else "";
      if path == "@" {
        return "";
      }
      prop := Some(table.props[index.value].name);
    }
    assert path == Tail(prop);
    ChildrenIn(g, depth, table);
    if table.parent != null {
      var cur := table;
      ghost var names := Names(g, depth, table);
      assert names != [];
      while cur.parent != null
        invariant cur in tables && Slashed(names) + Tail(prop) == Slashed(Names(g, depth, cur)) + path
        decreases |Names(g, depth, cur)|
      {
        ChildrenIn(g, depth, cur);
        assert g[cur] == Node(cur.name, cur.props, cur.children, cur.parent);
        SlashedSnoc(Names(g, depth, cur.parent), cur.name, path);
        path := "/" + cur.name + path;
        cur := cur.parent;
      }
      assert Names(g, depth, cur) == [] && Slashed([]) + path == path;
    } else {
      path := "/" + path;
    }
  }

  // ---- Values by path --------------------------------------------------------------------------------

  /** The value a path leads to, if it leads to a property. */
  ghost function ValueAt(how: Lookup, g: Graph, depth: map<DataTable, nat>, table: DataTable, ops: seq<PathOp>)
    : Option<Var>
    requires Linked(g, depth) && table in g
  {
    match Walk(how, g, depth, table, ops)
    case Some(PropAt(t, k)) => Some(g[t].props[k].value)
    case _ => None
  }

  ghost function OpsIn(path: string): seq<PathOp> {
    OpsOf(Tokens(Trimmed(path), "", true)).0
  }

  method GetVarFromPath(table: DataTable, path: string, default: Var, ghost tables: set<DataTable>,
                        ghost depth: map<DataTable, nat>) returns (value: Var)
    requires table in tables && Linked(Snapshot(tables), depth)
    ensures var v := ValueAt(ByPattern, Snapshot(tables), depth, table, OpsIn(path));
            value == if v.Some? then v.value else default
  {
    hide Linked, Walk, OpsOf, Tokens, Trimmed;
    var p := new DataTablePath(path);
    WalkNothing(ByPattern, Snapshot(tables), depth, table);
    var ok := p.Evaluate(table, tables, depth);
    if !ok {
      return default;
    }
    match p.result.value {
      case TableAt(_) => value := default;
      case PropAt(t, k) => value := t.props[k].value;
    }
  }

  /** The path ends at a property. */
  predicate NamesProp(ops: seq<PathOp>) {
    ops != [] && (ops[0].Prop? || NamesProp(ops[1..]))
  }

  lemma {:induction false} PropIffNamed(how: Lookup, g: Graph, depth: map<DataTable, nat>, cur: DataTable,
                                        ops: seq<PathOp>)
    requires Linked(g, depth) && cur in g && Walk(how, g, depth, cur, ops).Some?
    ensures Walk(how, g, depth, cur, ops).value.PropAt? <==> NamesProp(ops)
    decreases |ops|
  {
    hide Step, Linked;
    if ops != [] {
      var next := Step(how, g, depth, cur, ops[0]).value;
      if next.TableAt? {
        PropIffNamed(how, g, depth, next.table, ops[1..]);
      }
    }
  }

  lemma LeadsToProp(how: Lookup, g: Graph, depth: map<DataTable, nat>, table: DataTable, ops: seq<PathOp>,
                    target: Target)
    requires Leads(how, g, depth, table, ops, target)
    ensures target.PropAt? <==> NamesProp(ops)
    ensures target.table in g && (target.PropAt? ==> target.index < |g[target.table].props|)
  {
    hide NamesProp;
    PropIffNamed(how, g, depth, table, ops);
  }

  /** Nothing was changed but the value of one property. */
  ghost predicate KeptBut(g: Graph, g': Graph, target: Option<Target>) {
    Grown(g, g') && forall n, i :: n in g && 0 <= i < |g[n].props| && target != Some(PropAt(n, i)) ==>
                      g'[n].props[i] == g[n].props[i]
  }

  /** Creates the property a path names and sets it, and nothing else that was there; the property of
      exactly that name then has the value. It fails exactly when the path goes above the root or names
      no property. */
  method NewVarFromPath(table: DataTable, path: string, value: Var, ghost tables: set<DataTable>,
                        ghost depth: map<DataTable, nat>)
    returns (ok: bool, ghost tables': set<DataTable>, ghost depth': map<DataTable, nat>, ghost target: Option<Target>,
             ghost trace: seq<Place>, ghost made: Place)
    requires table in tables && Linked(Snapshot(tables), depth)
    modifies tables
    ensures tables <= tables' && fresh(tables' - tables) && Linked(Snapshot(tables'), depth')
    ensures ok <==> LegalAt(OpsIn(path), depth, table) && NamesProp(OpsIn(path))
    ensures ok ==> target.Some? && Leads(ByName, Snapshot(tables'), depth', table, OpsIn(path), target.value)
    ensures !ok ==> target == None
    ensures KeptBut(old(Snapshot(tables)), Snapshot(tables'), target)
    ensures ok ==> ValueAt(ByName, Snapshot(tables'), depth', table, OpsIn(path)) == Some(value)
    ensures ok ==>
      && target.value.PropAt? && trace != [] && trace[0] == Place(old(Snapshot(tables)), depth, table)
      && Creates(false, trace, OpsIn(path), made, target.value) && depth' == made.depth
      && target.value.table in made.g && target.value.index < |made.g[target.value.table].props|
      && Snapshot(tables') == WithValue(made.g, target.value.table, target.value.index, value)
  {
    hide Linked, Walk, OpsOf, Tokens, Trimmed, LegalAt, Grown, ValueAt, LeadsSomewhere, NamesProp, KeptBut, Leads, Kept;
    var p := new DataTablePath(path);
    ghost var g0 := Snapshot(tables);
    target, made := None, Place(g0, depth, table);
    ok, tables', depth', trace := p.CreatePathInDataTable(table, false, tables, depth);
    KeptMeans(g0, Snapshot(tables'), None);
    if !ok {
      NothingNamed(OpsIn(path));
      return;
    }
    LeadsToProp(ByName, Snapshot(tables'), depth', table, OpsIn(path), p.result.value);
    match p.result.value {
      case TableAt(_) =>
        ok := false;
      case PropAt(t, k) =>
        ghost var g := Snapshot(tables');
        made := Place(g, depth', t);
        t.props := t.props[k := t.props[k].(value := value)];
        target := Some(PropAt(t, k));
        assert Snapshot(tables') == WithValue(g, t, k, value);
        ValueSet(ByName, g, depth', table, OpsIn(path), t, k, value);
        KeptThenSet(g0, g, t, k, value);
    }
  }

  lemma NothingNamed(ops: seq<PathOp>)
    ensures NamesProp(ops) ==> ops != []
  {
  }

  lemma KeptMeans(g: Graph, g': Graph, target: Option<Target>)
    requires Kept(g, g')
    ensures KeptBut(g, g', target)
  {
  }

  lemma KeptThenSet(g0: Graph, g: Graph, t: DataTable, k: nat, value: Var)
    requires Kept(g0, g) && t in g && k < |g[t].props|
    ensures KeptBut(g0, WithValue(g, t, k, value), Some(PropAt(t, k)))
  {
    GrownValue(g, t, k, value);
    GrownTwice(g0, g, WithValue(g, t, k, value));
  }

  ghost function WithValue(g: Graph, t: DataTable, k: nat, value: Var): Graph
    requires t in g && k < |g[t].props|
  {
    g[t := g[t].(props := g[t].props[k := g[t].props[k].(value := value)])]
  }

  lemma ValueSet(how: Lookup, g: Graph, depth: map<DataTable, nat>, table: DataTable, ops: seq<PathOp>, t: DataTable,
      k: nat, value: Var)
    requires Leads(how, g, depth, table, ops, PropAt(t, k))
    ensures t in g && k < |g[t].props| && ops != []
    ensures var g' := WithValue(g, t, k, value);
            Linked(g', depth) && Leads(how, g', depth, table, ops, PropAt(t, k)) && ValueAt(how, g', depth, table,
                ops) == Some(value)
  {
    var g' := WithValue(g, t, k, value);
    LinkedValue(g, depth, t, k, value);
    GrownValue(g, t, k, value);
    hide Linked, Grown;
    WalkNothing(how, g, depth, table);
    WalkGrown(how, g, g', depth, depth, table, ops);
  }

  lemma LinkedValue(g: Graph, depth: map<DataTable, nat>, t: DataTable, k: nat, value: Var)
    requires Linked(g, depth) && t in g && k < |g[t].props|
    ensures Linked(WithValue(g, t, k, value), depth)
  {
    var g' := WithValue(g, t, k, value);
    forall n | n in g ensures LinkedAt(g', depth, n) {
      assert LinkedAt(g, depth, n);
      SameLinks(g, g', depth, n);
    }
  }

  lemma GrownValue(g: Graph, t: DataTable, k: nat, value: Var)
    requires t in g && k < |g[t].props|
    ensures Grown(g, WithValue(g, t, k, value))
  {
  }

  lemma GrownTwice(a: Graph, b: Graph, c: Graph)
    requires Grown(a, b) && Grown(b, c)
    ensures Grown(a, c)
  {
  }
}
