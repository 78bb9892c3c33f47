/** Data tables: trees of named tables with properties, their deep copy and their merge. */
module Tables {
  import opened Wrappers
  import opened BitNumbers

  // ---- Tables as values ------------------------------------------------------------------------

  /** A property's value: a number or vector by its type code and bytes, a string, or an object. */
  datatype Var = Null | Scalar(code: nat, bits: seq<byte>) | Str(text: string) | Object(id: nat)

  datatype Property = Property(name: string, value: Var, meta: Option<string>)

  datatype Table = Table(name: string, props: seq<Property>, children: seq<Table>)

  /** The index of a property, or the number of properties if there is none of that name. */
  function PropIndex(props: seq<Property>, name: string): (k: nat)
    ensures k <= |props|
    ensures k < |props| ==> props[k].name == name
    ensures forall i :: 0 <= i < k ==> props[i].name != name
  {
    if props == [] || props[0].name == name then 0 else 1 + PropIndex(props[1..], name)
  }

  function ChildIndex(children: seq<Table>, name: string): (k: nat)
    ensures k <= |children|
    ensures k < |children| ==> children[k].name == name
    ensures forall i :: 0 <= i < k ==> children[i].name != name
  {
    if children == [] || children[0].name == name then 0 else 1 + ChildIndex(children[1..], name)
  }

  /** Sets a property, at its place if there is one of that name, else at the end. */
  function PutProp(props: seq<Property>, p: Property): seq<Property> {
    var k := PropIndex(props, p.name);
    if k < |props| then props[k := p] else props + [p]
  }

  function PutAll(props: seq<Property>, more: seq<Property>): seq<Property> {
    if more == [] then props else PutProp(PutAll(props, more[..|more| - 1]), more[|more| - 1])
  }

  predicate UniqueProps(props: seq<Property>) {
    forall i, j :: 0 <= i < j < |props| ==> props[i].name != props[j].name
  }

  predicate UniqueNames(children: seq<Table>) {
    forall i, j :: 0 <= i < j < |children| ==> children[i].name != children[j].name
  }

  /** No two siblings anywhere in the tree have one name, and no two properties of one table. */
  predicate Unique(t: Table) {
    UniqueProps(t.props) && UniqueNames(t.children) && forall i :: 0 <= i < |t.children| ==> Unique(t.children[i])
  }

  /** No two properties of one table anywhere in the tree have one name. */
  predicate Proper(t: Table) {
    UniqueProps(t.props) && forall i :: 0 <= i < |t.children| ==> Proper(t.children[i])
  }

  /** Merging child `c`: into the first child of its name if there is one, else as a copy at the end. */
  function MergedChild(children: seq<Table>, c: Table): seq<Table>
    decreases c, 1
  {
    var k := ChildIndex(children, c.name);
    if k < |children| then children[k := Merged(children[k], c)] else children + [c]
  }

  function MergedChildren(children: seq<Table>, s: Table, n: nat): seq<Table>
    requires n <= |s.children|
    decreases s, 0, n
  {
    if n == 0 then children else MergedChild(MergedChildren(children, s, n - 1), s.children[n - 1])
  }

  /** `Copy` with the flags Recursive, UniqueChild and Clone: `s` merged into `d`. */
  function Merged(d: Table, s: Table): Table
    decreases s, 0, |s.children| + 1
  {
    Table(s.name, PutAll(d.props, s.props), MergedChildren(d.children, s, |s.children|))
  }

  /** `Copy` with the flags Recursive, AppendAllChildren and Clone. */
  function Appended(d: Table, s: Table): Table {
    Table(s.name, PutAll(d.props, s.props), d.children + s.children)
  }

  // ---- Merging twice -----------------------------------------------------------------------------

  /** The properties hold `p`. */
  predicate Holds(props: seq<Property>, p: Property) {
    var k := PropIndex(props, p.name);
    k < |props| && props[k] == p
  }

  lemma IndexIs(props: seq<Property>, k: nat)
    requires UniqueProps(props) && k < |props|
    ensures PropIndex(props, props[k].name) == k
  {
  }

  lemma PutHolds(props: seq<Property>, p: Property, q: Property)
    ensures Holds(PutProp(props, p), p)
    ensures Holds(props, q) && q.name != p.name ==> Holds(PutProp(props, p), q)
    ensures Holds(props, p) ==> PutProp(props, p) == props
  {
    var after := PutProp(props, p);
    var k := PropIndex(after, p.name);
    var k' := PropIndex(props, p.name);
    assert k' < |after| && after[k'].name == p.name;
    if Holds(props, q) && q.name != p.name {
      var i := PropIndex(props, q.name);
      assert after[i] == q;
    }
  }

  lemma {:induction false} PutAllHolds(props: seq<Property>, more: seq<Property>, i: nat)
    requires UniqueProps(more) && i < |more|
    ensures Holds(PutAll(props, more), more[i])
    decreases |more|
  {
    hide Holds, PutProp;
    var n := |more| - 1;
    var before := PutAll(props, more[..n]);
    if i < n {
      PutAllHolds(props, more[..n], i);
      PutHolds(before, more[n], more[i]);
    } else {
      PutHolds(before, more[n], more[n]);
    }
  }

  lemma {:induction false} PutAllAgain(props: seq<Property>, more: seq<Property>)
    requires forall i :: 0 <= i < |more| ==> Holds(props, more[i])
    ensures PutAll(props, more) == props
    decreases |more|
  {
    hide Holds, PutProp;
    if more != [] {
      var n := |more| - 1;
      PutAllAgain(props, more[..n]);
      PutHolds(props, more[n], more[n]);
    }
  }

  /** Setting distinct properties on an empty table gives just them. */
  lemma {:induction false} PutAllFromEmpty(props: seq<Property>, n: nat)
    requires UniqueProps(props) && n <= |props|
    ensures PutAll([], props[..n]) == props[..n]
  {
    if n > 0 {
      PutAllFromEmpty(props, n - 1);
      assert props[..n][..n - 1] == props[..n - 1];
      assert props[..n] == props[..n - 1] + [props[n - 1]];
    }
  }

  /** Merging `c` once more changes nothing. */
  predicate Absorbed(children: seq<Table>, c: Table) {
    var k := ChildIndex(children, c.name);
    k < |children| && Merged(children[k], c) == children[k]
  }

  lemma MergeChildOnce(children: seq<Table>, c: Table)
    requires var k := ChildIndex(children, c.name);
             if k < |children| then Merged(Merged(children[k], c), c) == Merged(children[k], c) else Merged(c, c) == c
    ensures Absorbed(MergedChild(children, c), c)
  {
    var k := ChildIndex(children, c.name);
    var after := MergedChild(children, c);
    assert after[k].name == c.name && forall i :: 0 <= i < k ==> after[i].name != c.name;
    assert ChildIndex(after, c.name) == k;
  }

  lemma MergeChildOther(children: seq<Table>, c: Table, b: Table)
    requires Absorbed(children, b) && b.name != c.name
    ensures Absorbed(MergedChild(children, c), b)
  {
    hide Merged;
    var k := ChildIndex(children, c.name);
    if k < |children| {
      MergedName(children[k], c);
    }
    var after := MergedChild(children, c);
    var i := ChildIndex(children, b.name);
    assert after[i] == children[i];
    assert forall j :: 0 <= j < i ==> after[j].name != b.name;
    assert ChildIndex(after, b.name) == i;
  }

  lemma MergedName(d: Table, c: Table)
    ensures Merged(d, c).name == c.name
  {
  }

  lemma {:induction false} MergeChildrenOnce(children: seq<Table>, s: Table, n: nat, i: nat)
    requires Unique(s) && i < n <= |s.children|
    ensures Absorbed(MergedChildren(children, s, n), s.children[i])
    decreases s, 0, n
  {
    hide Absorbed, MergedChild, Merged;
    var before := MergedChildren(children, s, n - 1);
    var c := s.children[n - 1];
    if i == n - 1 {
      SelfMerge(c);
      var k := ChildIndex(before, c.name);
      if k < |before| {
        MergeTwice(before[k], c);
      }
      MergeChildOnce(before, c);
    } else {
      MergeChildrenOnce(children, s, n - 1, i);
      MergeChildOther(before, c, s.children[i]);
    }
  }

  lemma {:induction false} MergeChildrenAgain(children: seq<Table>, s: Table, n: nat)
    requires n <= |s.children| && forall i :: 0 <= i < n ==> Absorbed(children, s.children[i])
    ensures MergedChildren(children, s, n) == children
    decreases n
  {
    hide Merged;
    if n > 0 {
      MergeChildrenAgain(children, s, n - 1);
      assert Absorbed(children, s.children[n - 1]);
    }
  }

  /** A tree with unique names merged into itself is itself. */
  lemma {:induction false} SelfMerge(t: Table)
    requires Unique(t)
    ensures Merged(t, t) == t
    decreases t, 1
  {
    forall i | 0 <= i < |t.props| ensures Holds(t.props, t.props[i]) {
      IndexIs(t.props, i);
    }
    PutAllAgain(t.props, t.props);
    forall i | 0 <= i < |t.children| ensures Absorbed(t.children, t.children[i]) {
      SelfMerge(t.children[i]);
      assert ChildIndex(t.children, t.children[i].name) == i;
    }
    MergeChildrenAgain(t.children, t, |t.children|);
  }

  /** Merging a tree whose names are unique among siblings is idempotent, whatever it is merged into. */
  lemma {:induction false} MergeTwice(d: Table, s: Table)
    requires Unique(s)
    ensures Merged(Merged(d, s), s) == Merged(d, s)
    decreases s, 1
  {
    hide Holds, Absorbed, MergedChildren, PutAll;
    var m := Merged(d, s);
    forall i | 0 <= i < |s.props| ensures Holds(m.props, s.props[i]) {
      PutAllHolds(d.props, s.props, i);
    }
    PutAllAgain(m.props, s.props);
    forall i | 0 <= i < |s.children| ensures Absorbed(m.children, s.children[i]) {
      MergeChildrenOnce(d.children, s, |s.children|, i);
    }
    MergeChildrenAgain(m.children, s, |s.children|);
  }

  /** Without unique names it need not be: here the first merge copies the child `a` whole, with both its
      children `b`; the second merges both of them into the first `b`. */
  lemma MergeTwiceNeedsUnique()
    ensures var b1, b2 := Table("b", [], [Table("x", [], [])]), Table("b", [], [Table("y", [], [])]);
            var s := Table("", [], [Table("a", [], [b1, b2])]);
            var d := Table("", [], []);
            Merged(Merged(d, s), s) != Merged(d, s)
  {
    var x, y := Table("x", [], []), Table("y", [], []);
    var b1, b2 := Table("b", [], [x]), Table("b", [], [y]);
    var a := Table("a", [], [b1, b2]);
    var s := Table("", [], [a]);
    var d := Table("", [], []);
    assert MergedChildren([], s, 1) == [a];
    assert Merged(d, s) == Table("", [], [a]);
    hide Merged, MergedChildren;
    var twice := Merged(s, s);
    OneChild(s, s, a);
    if twice == s {
      assert s.children[0] == Merged(a, a);
      assert Merged(a, a).children[0] == b1;
      TwoChildren(a, a, b1, b2);
    }
  }

  lemma OneChild(d: Table, s: Table, c: Table)
    requires s.children == [c]
    ensures Merged(d, s).children == MergedChild(d.children, c)
  {
    assert MergedChildren(d.children, s, 0) == d.children;
  }

  lemma TwoChildren(d: Table, s: Table, b: Table, c: Table)
    requires s.children == [b, c]
    ensures Merged(d, s).children == MergedChild(MergedChild(d.children, b), c)
  {
    assert MergedChildren(d.children, s, 0) == d.children;
    assert MergedChildren(d.children, s, 1) == MergedChild(d.children, b);
  }

  // ---- What a merge keeps ------------------------------------------------------------------------

  /** A merge removes nothing and reorders nothing: the properties and children of the destination
      keep their places and names, and those whose name the source does not have are unchanged. */
  lemma {:induction false} PropsKept(props: seq<Property>, more: seq<Property>, k: nat)
    requires k < |props|
    ensures k < |PutAll(props, more)| && PutAll(props, more)[k].name == props[k].name
    ensures (forall i :: 0 <= i < |more| ==> more[i].name != props[k].name) ==> PutAll(props, more)[k] == props[k]
    decreases |more|
  {
    if more != [] {
      PropsKept(props, more[..|more| - 1], k);
    }
  }

  lemma {:induction false} ChildrenKept(children: seq<Table>, s: Table, n: nat, k: nat)
    requires k < |children| && n <= |s.children|
    ensures var after := MergedChildren(children, s, n);
            && k < |after| && after[k].name == children[k].name
            && ((forall i :: 0 <= i < n ==> s.children[i].name != children[k].name) ==> after[k] == children[k])
    decreases n
  {
    hide Merged;
    if n > 0 {
      ChildrenKept(children, s, n - 1, k);
      var before := MergedChildren(children, s, n - 1);
      var c := s.children[n - 1];
      MergedName(before[k], c);
    }
  }
}
