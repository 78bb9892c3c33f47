/** Data tables as objects: each owns its children, which point back to it. */
module TableObjects {
  import opened Wrappers
  import opened Tables

  /** `cDataTable`. The property map keeps its items in order of insertion and finds them by name. */
  class DataTable {
    var name: string
    var props: seq<Property>
    var children: seq<DataTable>
    var parent: DataTable?

    /** This table and everything below it. */
    ghost var repr: set<DataTable>

    /** The tree below this table is `t`: no table occurs twice in it, and every child's parent is
        the table it is a child of. */
    ghost predicate Is(t: Table)
      reads this, repr
      decreases t
    {
      && this in repr
      && name == t.name && props == t.props && |children| == |t.children|
      && UniqueProps(props)
      && (forall i :: 0 <= i < |children| ==>
            && children[i] in repr && children[i].repr <= repr && this !in children[i].repr
            && children[i].parent == this
            && children[i].Is(t.children[i]))
      && (forall i, j :: 0 <= i < j < |children| ==> children[i].repr !! children[j].repr)
    }

    lemma Parts(t: Table)
      requires Is(t)
      ensures this in repr && name == t.name && props == t.props && |children| == |t.children| && UniqueProps(props)
      ensures forall i :: 0 <= i < |children| ==>
                children[i] in repr && children[i].repr <= repr && children[i].Is(t.children[i]) &&
                    children[i].parent == this
    {
    }

    lemma PropsOf(t: Table)
      requires Is(t)
      ensures props == t.props
    {
    }

    constructor (name: string)
      ensures Is(Table(name, [], [])) && fresh(repr) && parent == null
    {
      this.name := name;
      props, children, parent := [], [], null;
      repr := {this};
    }

    method SetName(name: string, ghost t: Table)
      requires Is(t)
      modifies this`name
      ensures Is(t.(name := name))
    {
      this.name := name;
    }

    /** `SetVar` and `SetMetadataFromIndex` on the index it returns. */
    method SetVar(name: string, value: Var, ghost t: Table) returns (index: nat)
      requires Is(t)
      modifies this`props
      ensures index == PropIndex(t.props, name) && index < |props|
      ensures Is(t.(props := props))
      ensures props == if index < |t.props| then t.props[index := t.props[index].(value := value)]
                       else t.props + [Property(name, value, None)]
    {
      index := PropIndex(props, name);
      if index == |props| {
        props := props + [Property(name, Null, None)];
      }
      props := props[index := props[index].(value := value)];
    }

    method SetMetadataFromIndex(index: nat, meta: Option<string>, ghost t: Table) returns (ok: bool)
      requires Is(t)
      modifies this`props
      ensures ok <==> index < |t.props|
      ensures Is(t.(props := props))
      ensures props == if ok then t.props[index := t.props[index].(meta := meta)] else t.props
    {
      if index >= |props| {
        return false;
      }
      props := props[index := props[index].(meta := meta)];
      ok := true;
    }

    /** `AddChild` of a table that is in no tree and does not contain this one. */
    method AddChild(child: DataTable, ghost t: Table, ghost c: Table)
      requires Is(t) && child.Is(c) && repr !! child.repr
      modifies this`children, this`repr, child`parent
      ensures Is(t.(children := t.children + [c])) && repr == old(repr) + old(child.repr)
      ensures child.repr == old(child.repr) && children == old(children) + [child]
    {
      PushChild(child);
      repr := repr + child.repr;
    }

    /** The links `AddChild` sets. */
    method PushChild(child: DataTable)
      modifies this`children, child`parent
      ensures children == old(children) + [child] && child.parent == this
    {
      children := children + [child];
      child.parent := this;
    }

    /** The index of the first child of a name, or the number of children. */
    method GetChildIndex(name: string, ghost t: Table) returns (k: nat)
      requires Is(t)
      ensures k == ChildIndex(t.children, name)
    {
      k := 0;
      while k < |children|
        invariant k <= |children|
        invariant forall i :: 0 <= i < k ==> t.children[i].name != name
      {
        if children[k].name == name {
          FirstIs(t.children, name, k);
          return;
        }
        k := k + 1;
      }
      FirstIs(t.children, name, k);
    }

    /** The first half of `Copy`: every property of the source is set here, with its metadata. */
    method CopyProperties(src: DataTable, ghost td: Table, ghost ts: Table)
      requires Is(td) && src.Is(ts) && repr !! src.repr
      modifies this`props
      ensures Is(td.(props := PutAll(td.props, ts.props))) && src.Is(ts)
    {
      hide Is, PutAll, PutProp, UniqueProps;
      Parts(td);
      src.Parts(ts);
      NoProps(td.props);
      assert ts.props[..0] == [];
      var i := 0;
      while i < |src.props|
        invariant i <= |ts.props| && src.Is(ts) && src.props == ts.props
        invariant Is(td.(props := PutAll(td.props, ts.props[..i])))
      {
        ghost var t := td.(props := PutAll(td.props, ts.props[..i]));
        var p := src.props[i];
        var index := SetVar(p.name, p.value, t);
        var ok := SetMetadataFromIndex(index, p.meta, t.(props := props));
        PutIs(t.props, p);
        PutAllStep(td.props, ts.props, i);
        Parts(td.(props := props));
        i := i + 1;
      }
      assert ts.props[..|ts.props|] == ts.props;
    }

    /** One turn of the children loop of `Copy` with the flag UniqueChild. */
    method MergeChild(child: DataTable, ghost t: Table, ghost c: Table)
      requires Is(t) && child.Is(c) && repr !! child.repr
      modifies repr
      ensures Is(t.(children := MergedChild(t.children, c))) && child.Is(c)
      ensures old(repr) <= repr && fresh(repr - old(repr)) && parent == old(parent)
      decreases c, 1
    {
      hide Merged, MergedChild;
      var k := GetChildIndex(child.name, t);
      MergedChildIs(t.children, c);
      if k == |children| {
        var copy := child.Clone(c);
        AddChild(copy, t, c);
      } else {
        CopyInto(k, child, t, c);
      }
    }

    /** Copies `child` into child `k`. */
    method CopyInto(k: nat, child: DataTable, ghost t: Table, ghost c: Table)
      requires Is(t) && child.Is(c) && repr !! child.repr && k < |children|
      modifies repr
      ensures Is(t.(children := t.children[k := Merged(t.children[k], c)])) && child.Is(c)
      ensures old(repr) <= repr && fresh(repr - old(repr)) && parent == old(parent)
      decreases c, 0, 2
    {
      hide Merged;
      children[k].Copy(child, true, t.children[k], c);
      repr := repr + children[k].repr;
    }

    /** One turn of the children loops of `Copy`. */
    method CopyChild(child: DataTable, unique: bool, ghost t: Table, ghost c: Table)
      requires Is(t) && child.Is(c) && repr !! child.repr
      modifies repr
      ensures Is(t.(children := if unique then MergedChild(t.children, c) else t.children + [c]))
      ensures this in repr && old(repr) <= repr && fresh(repr - old(repr)) && parent == old(parent)
      decreases c, 2
    {
      hide MergedChild;
      if unique {
        MergeChild(child, t, c);
      } else {
        var copy := child.Clone(c);
        AddChild(copy, t, c);
      }
    }

    /** The children loops of `Copy`. */
    method CopyChildren(src: DataTable, unique: bool, ghost t: Table, ghost ts: Table)
      requires Is(t) && src.Is(ts) && repr !! src.repr
      modifies repr
      ensures Is(t.(children := ChildrenAfter(t.children, ts, |ts.children|, unique))) && src.Is(ts)
      ensures old(repr) <= repr && fresh(repr - old(repr)) && parent == old(parent)
      decreases ts, 0, 0
    {
      hide *;
      src.Parts(ts);
      Parts(t);
      NoChildren(t.children, ts);
      var i := 0;
      while i < |src.children|
        invariant i <= |ts.children| && src.Is(ts) && repr !! src.repr && |src.children| == |ts.children|
        invariant old(repr) <= repr && fresh(repr - old(repr)) && parent == old(parent)
        invariant this in repr && src in src.repr
        invariant Is(t.(children := ChildrenAfter(t.children, ts, i, unique)))
      {
        ghost var now := t.(children := ChildrenAfter(t.children, ts, i, unique));
        src.Parts(ts);
        ChildrenStep(t.children, ts, i, unique);
        CopyChild(src.children[i], unique, now, ts.children[i]);
        i := i + 1;
      }
    }

    /** `Copy` with the flags Recursive and Clone, and UniqueChild or AppendAllChildren. */
    method Copy(src: DataTable, unique: bool, ghost td: Table, ghost ts: Table)
      requires Is(td) && src.Is(ts) && repr !! src.repr
      modifies repr
      ensures Is(if unique then Merged(td, ts) else Appended(td, ts)) && src.Is(ts)
      ensures old(repr) <= repr && fresh(repr - old(repr)) && parent == old(parent)
      decreases ts, 0, 1
    {
      hide *;
      src.Parts(ts);
      Parts(td);
      SetName(src.name, td);
      CopyProperties(src, td.(name := ts.name), ts);
      CopyChildren(src, unique, Table(ts.name, PutAll(td.props, ts.props), td.children), ts);
      AllChildren(td, ts, unique);
    }

    /** `Clone`: a tree of equal structure that shares no table with this one. */
    method Clone(ghost t: Table) returns (copy: DataTable)
      requires Is(t)
      ensures Is(t) && copy.Is(t) && fresh(copy.repr) && copy.parent == null
      decreases t, 0, 2
    {
      copy := new DataTable("");
      copy.Copy(this, false, Table("", [], []), t);
      PutAllFromEmpty(t.props, |t.props|);
      assert t.props[..|t.props|] == t.props && [] + t.children == t.children;
    }
  }

  /** The children after the first `n` children of the source. */
  ghost function ChildrenAfter(children: seq<Table>, s: Table, n: nat, unique: bool): seq<Table>
    requires n <= |s.children|
  {
    if unique then MergedChildren(children, s, n) else children + s.children[..n]
  }

  lemma NoChildren(children: seq<Table>, s: Table)
    ensures ChildrenAfter(children, s, 0, true) == children && ChildrenAfter(children, s, 0, false) == children
  {
  }

  lemma ChildrenStep(children: seq<Table>, s: Table, n: nat, unique: bool)
    requires n < |s.children|
    ensures ChildrenAfter(children, s, n + 1, unique) ==
            if unique then MergedChild(ChildrenAfter(children, s, n, unique), s.children[n])
            else ChildrenAfter(children, s, n, unique) + [s.children[n]]
  {
    hide MergedChild;
  }

  lemma AllChildren(d: Table, s: Table, unique: bool)
    ensures Table(s.name, PutAll(d.props, s.props), ChildrenAfter(d.children, s, |s.children|, unique)) ==
            if unique then Merged(d, s) else Appended(d, s)
  {
    assert s.children[..|s.children|] == s.children;
  }

  lemma NoProps(props: seq<Property>)
    ensures PutAll(props, []) == props
  {
  }

  lemma PutAllStep(props: seq<Property>, more: seq<Property>, i: nat)
    requires i < |more|
    ensures PutAll(props, more[..i + 1]) == PutProp(PutAll(props, more[..i]), more[i])
  {
    assert more[..i + 1][..i] == more[..i];
  }

  /** Setting a value and then its metadata sets the whole property. */
  lemma PutIs(props: seq<Property>, p: Property)
    ensures var k := PropIndex(props, p.name);
            PutProp(props, p) ==
            if k < |props| then
              props[k := props[k].(value := p.value)][k := props[k].(value := p.value).(meta := p.meta)]
            else (props + [Property(p.name, p.value, None)])[k := Property(p.name, p.value, None).(meta := p.meta)]
  {
  }

  lemma MergedChildIs(children: seq<Table>, c: Table)
    ensures var k := ChildIndex(children, c.name);
            MergedChild(children, c) == if k < |children| then children[k := Merged(children[k], c)] else children + [c]
  {
  }

  lemma FirstIs(children: seq<Table>, name: string, k: nat)
    requires k <= |children| && (k < |children| ==> children[k].name == name)
    requires forall i :: 0 <= i < k ==> children[i].name != name
    ensures k == ChildIndex(children, name)
  {
  }
}
