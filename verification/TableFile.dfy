/** Saving data tables to a file and loading them, plainly or through the block layer. */
module TableFile {
  import opened Wrappers
  import opened BitNumbers
  import opened MemFile
  import opened BlockFile
  import opened Tables
  import opened TableObjects
  import opened TableFormat

  // ---- Files to write to ---------------------------------------------------------------------------

  /** A file as the writer sees it: the end of a memory file, or an encoder on top of one. No single
      write is longer than `bound`. */
  class Output {
    const mem: DynamicMem
    const zip: Encoder?
    ghost const bound: nat

    ghost predicate Valid()
      reads this, Objects()
    {
      if zip == null then mem.Valid() && mem.here == mem.stop
      else
        && zip.Valid() && zip.open && zip.fp == mem
        && forall raw :: raw in zip.blocks ==> |raw| < zip.bufferSize + bound
    }

    ghost function Objects(): set<object> {
      if zip == null then {mem} else {mem, zip, zip.fp, zip.buffer}
    }

    /** What has been written: the bytes of the file, or all the encoder accepted. */
    ghost function Written(): seq<byte>
      requires Valid()
      reads this, Objects()
    {
      if zip == null then mem.Contents() else zip.Written()
    }

    constructor Plain(mem: DynamicMem, ghost bound: nat)
      requires mem.Valid() && mem.here == mem.stop
      ensures Valid() && Objects() == {mem} && Written() == mem.Contents()
      ensures this.mem == mem && zip == null && this.bound == bound
    {
      this.mem, zip, this.bound := mem, null, bound;
    }

    constructor Zipped(encoder: Encoder, ghost bound: nat)
      requires encoder.Valid() && encoder.open && encoder.blocks == []
      ensures Valid() && Written() == encoder.Written()
      ensures zip == encoder && mem == encoder.fp && this.bound == bound
    {
      mem, zip, this.bound := encoder.fp, encoder, bound;
    }

    method WriteRaw(bytes: seq<byte>)
      requires Valid() && |bytes| <= bound
      modifies Objects()
      ensures Valid() && Written() == old(Written()) + bytes
    {
      hide Flat, Frames, Encoder.Written;
      if zip == null {
        var _ := mem.WriteRaw(bytes);
      } else {
        var _ := zip.WriteRaw(bytes);
      }
    }

    method WriteLE32(n: nat)
      requires Valid() && 4 <= bound
      modifies Objects()
      ensures Valid() && Written() == old(Written()) + LE32(n)
    {
      WriteRaw(LE32(n));
    }

    method WriteStringZ(s: string)
      requires Valid() && IsText(s) && |s| < bound
      modifies Objects()
      ensures Valid() && Written() == old(Written()) + ZString(s)
    {
      WriteRaw(ZString(s));
    }
  }

  // ---- Writing a tree --------------------------------------------------------------------------------

  /** The longest single write that saving a tree takes. */
  function Width(t: Table): (w: nat)
    ensures w >= 4 && w > |t.name|
    decreases t, 1, 0
  {
    Max(|t.name| + 1, Max(PropsWidth(t.props), ChildrenWidth(t, |t.children|)))
  }

  function ChildrenWidth(t: Table, n: nat): (w: nat)
    requires n <= |t.children|
    ensures w >= 4
    decreases t, 0, n
  {
    if n == 0 then 4 else Max(ChildrenWidth(t, n - 1), Width(t.children[n - 1]))
  }

  lemma {:induction false} ChildFits(t: Table, n: nat, i: nat)
    requires i < n <= |t.children|
    ensures Width(t.children[i]) <= ChildrenWidth(t, n)
    decreases n
  {
    hide Width;
    if i < n - 1 {
      ChildFits(t, n - 1, i);
    }
  }

  lemma ChildrenFit(t: Table)
    ensures forall i :: 0 <= i < |t.children| ==> Width(t.children[i]) <= Width(t)
  {
    forall i | 0 <= i < |t.children| ensures Width(t.children[i]) <= Width(t) {
      ChildFits(t, |t.children|, i);
    }
  }

  function PropsWidth(props: seq<Property>): (w: nat)
    ensures forall i :: 0 <= i < |props| ==> PropWidth(props[i]) <= w
  {
    if props == [] then 0 else
      var n := |props| - 1;
      assert forall i :: 0 <= i < n ==> props[i] == props[..n][i];
      Max(PropsWidth(props[..n]), PropWidth(props[n]))
  }

  function PropWidth(p: Property): nat {
    Max(Max(|p.name| + 1, |MetaText(p.meta)| + 1), VarWidth(p.value))
  }

  function VarWidth(v: Var): nat {
    match v
    case Scalar(_, bits) => Max(4, |bits|)
    case Str(text) => Max(4, |text| + 1)
    case _ => 4
  }

  /** `VarSerializeWriteRaw`. */
  method WriteVar(out: Output, v: Var) returns (ok: bool)
    requires out.Valid() && VarOK(v) && VarWidth(v) <= out.bound
    modifies out.Objects()
    ensures out.Valid() && (ok <==> VarBytes(v).Some?)
    ensures ok ==> out.Written() == old(out.Written()) + VarBytes(v).value
  {
    hide Output.Written, LE32, ZString, Output.Valid;
    ghost var before := out.Written();
    ok := true;
    match v {
      case Null =>
        out.WriteLE32(NULL_CODE);
      case Scalar(code, bits) =>
        if SizeOf(code).None? {
          return false;
        }
        out.WriteLE32(code);
        out.WriteRaw(bits);
        Append3(before, LE32(code), bits, []);
      case Str(text) =>
        out.WriteLE32(STRING_CODE);
        out.WriteStringZ(text);
        Append3(before, LE32(STRING_CODE), ZString(text), []);
      case Object(_) =>
        ok := false;
    }
  }

  lemma Append3(w: seq<byte>, a: seq<byte>, b: seq<byte>, c: seq<byte>)
    ensures w + a + b == w + (a + b)
    ensures w + a + b + c == w + (a + b + c)
  {
  }

  method WriteProperty(out: Output, p: Property) returns (ok: bool)
    requires out.Valid() && PropOK(p) && PropWidth(p) <= out.bound
    modifies out.Objects()
    ensures out.Valid() && (ok <==> PropBytes(p).Some?)
    ensures ok ==> out.Written() == old(out.Written()) + PropBytes(p).value
  {
    hide Output.Written, VarBytes, ZString, Output.Valid;
    ghost var before := out.Written();
    out.WriteStringZ(p.name);
    ok := WriteVar(out, p.value);
    if !ok {
      return;
    }
    out.WriteStringZ(MetaText(p.meta));
    Append3(before, ZString(p.name), VarBytes(p.value).value, ZString(MetaText(p.meta)));
  }

  /** The property loop of `_WriteDataTableRaw`. */
  method WriteProperties(out: Output, props: seq<Property>) returns (ok: bool)
    requires out.Valid() && PropsWidth(props) <= out.bound
    requires forall i :: 0 <= i < |props| ==> PropOK(props[i])
    modifies out.Objects()
    ensures out.Valid() && (ok <==> PropsBytes(props).Some?)
    ensures ok ==> out.Written() == old(out.Written()) + PropsBytes(props).value
  {
    hide Output.Written, PropBytes, Output.Valid, PropOK, PropWidth;
    ghost var before := out.Written();
    var i := 0;
    while i < |props|
      invariant i <= |props| && out.Valid()
      invariant PropsBytes(props[..i]).Some? && out.Written() == before + PropsBytes(props[..i]).value
    {
      assert props[..i + 1][..i] == props[..i];
      ok := WriteProperty(out, props[i]);
      if !ok {
        NoneAfter(props, i);
        return;
      }
      Append3(before, PropsBytes(props[..i]).value, PropBytes(props[i]).value, []);
      i := i + 1;
    }
    assert props[..|props|] == props;
    ok := true;
  }

  lemma {:induction false} NoneAfter(props: seq<Property>, i: nat)
    requires (forall k :: 0 <= k < |props| ==> PropOK(props[k])) && i < |props| && PropBytes(props[i]).None?
    ensures PropsBytes(props).None?
    decreases |props|
  {
    hide PropBytes, PropOK;
    if i < |props| - 1 {
      NoneAfter(props[..|props| - 1], i);
    }
  }

  /** What comes before the properties. */
  method WriteHead(out: Output, table: DataTable, ghost t: Table)
    requires out.Valid() && table.Is(t) && Storable(t) && Width(t) <= out.bound
    modifies out.Objects()
    ensures out.Valid() && IsText(t.name) && out.Written() == old(out.Written()) + HeadBytes(t)
  {
    hide Output.Written, Output.Valid, DataTable.Is, Width, Storable, IsText, ZString, LE32, UniqueProps;
    ghost var before := out.Written();
    table.Parts(t);
    TableParts(t);
    out.WriteLE32(RAW);
    out.WriteStringZ(table.name);
    out.WriteStringZ("");
    out.WriteLE32(|table.props|);
    Append4(before, LE32(RAW), ZString(t.name), ZString(""), LE32(|t.props|));
  }

  lemma Append4(w: seq<byte>, a: seq<byte>, b: seq<byte>, c: seq<byte>, d: seq<byte>)
    ensures w + a + b + c + d == w + (a + b + c + d)
  {
  }

  /** `_WriteDataTableRaw`: fails exactly when some value below cannot be saved. */
  method WriteTable(out: Output, table: DataTable, ghost t: Table) returns (ok: bool)
    requires out.Valid() && table.Is(t) && Storable(t) && Width(t) <= out.bound
    modifies out.Objects()
    ensures out.Valid() && (ok <==> TableBytes(t).Some?)
    ensures ok ==> out.Written() == old(out.Written()) + TableBytes(t).value
    decreases t, 1
  {
    hide Output.Written, Output.Valid, DataTable.Is, Width, TableBytes, PropsBytes, ChildrenBytes, PropsWidth,
        Storable, PropOK, IsText, HeadBytes, LE32, UniqueProps;
    ghost var before := out.Written();
    table.Parts(t);
    TableParts(t);
    WriteHead(out, table, t);
    ok := WriteProperties(out, table.props);
    if !ok {
      return;
    }
    out.WriteLE32(|table.children|);
    ok := WriteChildren(out, table, t);
    if ok {
      Assembled(t, before);
    }
  }

  /** The children loop of `_WriteDataTableRaw`. */
  method WriteChildren(out: Output, table: DataTable, ghost t: Table) returns (ok: bool)
    requires out.Valid() && table.Is(t) && Storable(t) && Width(t) <= out.bound
    modifies out.Objects()
    ensures out.Valid() && (ok <==> ChildrenBytes(t, |t.children|).Some?)
    ensures ok ==> out.Written() == old(out.Written()) + ChildrenBytes(t, |t.children|).value
    decreases t, 0
  {
    hide Output.Written, TableBytes, Output.Valid, DataTable.Is, Width;
    ghost var before := out.Written();
    table.Parts(t);
    ChildrenFit(t);
    var i := 0;
    while i < |table.children|
      invariant i <= |t.children| == |table.children| && out.Valid() && table.Is(t)
      invariant ChildrenBytes(t, i).Some? && out.Written() == before + ChildrenBytes(t, i).value
    {
      table.Parts(t);
      ok := WriteTable(out, table.children[i], t.children[i]);
      if !ok {
        NoneAfterChild(t, i, |t.children|);
        return;
      }
      Append3(before, ChildrenBytes(t, i).value, TableBytes(t.children[i]).value, []);
      i := i + 1;
    }
    ok := true;
  }

  lemma {:induction false} NoneAfterChild(t: Table, i: nat, n: nat)
    requires Storable(t) && i < n <= |t.children| && TableBytes(t.children[i]).None?
    ensures ChildrenBytes(t, n).None?
    decreases n
  {
    hide TableBytes, Storable;
    if i < n - 1 {
      NoneAfterChild(t, i, n - 1);
    }
  }

  lemma TableParts(t: Table)
    requires Storable(t)
    ensures IsText(t.name) && |t.props| < TWO32 && |t.children| < TWO32 && IsText("")
    ensures |t.name| < Width(t) && 4 <= Width(t) && PropsWidth(t.props) <= Width(t)
    ensures forall i :: 0 <= i < |t.props| ==> PropOK(t.props[i])
    ensures PropsBytes(t.props).None? || ChildrenBytes(t, |t.children|).None? <==> TableBytes(t).None?
  {
    hide PropsBytes, ChildrenBytes, PropOK;
  }

  lemma Assembled(t: Table, w: seq<byte>)
    requires Storable(t) && TableBytes(t).Some?
    requires IsText(t.name) && (forall i :: 0 <= i < |t.props| ==> PropOK(t.props[i]))
    requires PropsBytes(t.props).Some? && ChildrenBytes(t, |t.children|).Some?
    ensures w + HeadBytes(t) + PropsBytes(t.props).value + LE32(|t.children|) + ChildrenBytes(t, |t.children|).value
            == w + TableBytes(t).value
  {
    hide PropsBytes, ChildrenBytes, PropOK, LE32, HeadBytes;
    Regroup(w, HeadBytes(t), PropsBytes(t.props).value, LE32(|t.children|), ChildrenBytes(t, |t.children|).value);
  }

  lemma Regroup(w: seq<byte>, a: seq<byte>, b: seq<byte>, c: seq<byte>, d: seq<byte>)
    ensures w + a + b + c + d == w + (a + (b + (c + d)))
  {
  }

  // ---- Files to read from ----------------------------------------------------------------------------

  /** A file as the reader sees it: a memory file, or a decoder on top of one. */
  class Input {
    const mem: DynamicMem
    const zip: Decoder?

    ghost predicate Valid()
      reads this, Objects()
    {
      if zip == null then mem.Valid() else zip.Valid() && zip.src == mem && zip.pos <= |zip.Stream()|
    }

    ghost function Objects(): set<object> {
      if zip == null then {mem} else {mem, zip, zip.src}
    }

    /** The bytes not read yet. */
    ghost function Rest(): seq<byte>
      requires Valid()
      reads this, Objects()
    {
      if zip == null then From(mem.Contents(), mem.here) else zip.Stream()[zip.pos..]
    }

    constructor Plain(mem: DynamicMem)
      requires mem.Valid()
      ensures Valid() && Objects() == {mem} && Rest() == From(mem.Contents(), mem.here)
      ensures this.mem == mem && zip == null
    {
      this.mem, zip := mem, null;
    }

    constructor Zipped(decoder: Decoder)
      requires decoder.Valid() && decoder.pos <= |decoder.Stream()|
      ensures Valid() && Rest() == decoder.Stream()[decoder.pos..]
      ensures zip == decoder && mem == decoder.src
    {
      mem, zip := decoder.src, decoder;
    }

    /** The next `n` bytes, zeros where the file has ended. */
    method ReadRaw(n: nat) returns (bytes: seq<byte>)
      requires Valid()
      modifies Objects()
      ensures Valid() && bytes == Take(old(Rest()), n) && Rest() == Drop(old(Rest()), n)
    {
      var out;
      if zip == null {
        ghost var file, p := mem.Contents(), mem.here;
        out := mem.ReadRaw(n);
        ReadIsTake(file, p, n);
        assert Rest() == From(file, mem.here);
      } else {
        ghost var stream, p := zip.Stream(), zip.pos;
        out := zip.ReadRaw(n);
        ReadIsTake(stream, p, n);
      }
      bytes := out + Zeros(n - |out|);
    }
  }

  lemma ReadIsTake(file: seq<byte>, p: nat, n: nat)
    ensures var out := ReadAt(file, p, n);
            && |out| <= n && out + Zeros(n - |out|) == Take(From(file, p), n)
            && Drop(From(file, p), n) == From(file, p + n)
            && (p < |file| ==> From(file, p + |out|) == From(file, p + n))
  {
  }

  // ---- Reading a tree ----------------------------------------------------------------------------------

  method ReadInt(inp: Input) returns (v: nat)
    requires inp.Valid()
    modifies inp.Objects()
    ensures inp.Valid() && v == ReadLE32(old(inp.Rest())) && inp.Rest() == Drop(old(inp.Rest()), 4)
  {
    var bytes := inp.ReadRaw(4);
    v := FromLE32(bytes);
  }

  /** `ReadString`: up to a NUL or the end of the file. */
  method ReadString(inp: Input) returns (text: string)
    requires inp.Valid()
    modifies inp.Objects()
    ensures inp.Valid() && (text, inp.Rest()) == ReadText(old(inp.Rest()))
  {
    hide Input.Valid, Input.Rest;
    ghost var s := inp.Rest();
    text := "";
    while true
      invariant inp.Valid() && |text| <= TextLength(s)
      invariant inp.Rest() == s[|text|..] && text == TextOf(s[..|text|])
      decreases |s| - |text|
    {
      ghost var n := |text|;
      var c := inp.ReadRaw(1);
      assert Drop(s[n..], 1) == Drop(s, n + 1);
      if c[0] == 0 {
        return;
      }
      assert s[..n + 1] == s[..n] + [s[n]];
      text := text + [c[0] as char];
    }
  }

  /** `VarSerializeReadRaw`. */
  method ReadValue(inp: Input) returns (v: Option<Var>)
    requires inp.Valid()
    modifies inp.Objects()
    ensures inp.Valid()
    ensures v.Some? <==> ReadVar(old(inp.Rest())).Some?
    ensures v.Some? ==> ReadVar(old(inp.Rest())).value == (v.value, inp.Rest())
  {
    hide Input.Valid, Input.Rest, ReadText, ReadLE32;
    var type_ := ReadInt(inp);
    var code := type_ % 256;
    if code == OBJECT_CODE {
      return None;
    } else if code == NULL_CODE {
      return Some(Null);
    } else if code == STRING_CODE {
      var text := ReadString(inp);
      return Some(Str(text));
    } else if SizeOf(code).Some? {
      var bits := inp.ReadRaw(SizeOf(code).value);
      return Some(Scalar(code, bits));
    }
    v := None;
  }

  /** One turn of the property loop of `_ReadDataTableRaw`. */
  method ReadProperty(inp: Input, table: DataTable, ghost t: Table) returns (ok: bool)
    requires inp.Valid() && table.Is(t)
    modifies inp.Objects(), table`props
    ensures inp.Valid() && (ok <==> ReadProp(old(inp.Rest())).Some?)
    ensures ok ==> table.Is(t.(props := PutProp(t.props, ReadProp(old(inp.Rest())).value.0)))
    ensures ok ==> inp.Rest() == ReadProp(old(inp.Rest())).value.1
    ensures !ok ==> table.Is(t)
  {
    hide Input.Valid, Input.Rest, ReadText, ReadVar, DataTable.Is, PutProp, PropIndex;
    var name := ReadString(inp);
    var v := ReadValue(inp);
    if v.None? {
      return false;
    }
    var index := table.SetVar(name, v.value, t);
    var meta := ReadString(inp);
    table.PropsOf(t.(props := table.props));
    var _ := table.SetMetadataFromIndex(index, Some(meta), t.(props := table.props));
    table.PropsOf(t.(props := table.props));
    PutIs(t.props, Property(name, v.value, Some(meta)));
    ok := true;
  }

  method ReadProperties(inp: Input, n: nat, table: DataTable, ghost t: Table) returns (ok: bool, ghost now: Table)
    requires inp.Valid() && table.Is(t)
    modifies inp.Objects(), table`props
    ensures inp.Valid() && (ok <==> ReadProps(old(inp.Rest()), n, t.props).Some?)
    ensures table.Is(now) && now.name == t.name && now.children == t.children
    ensures ok ==> ReadProps(old(inp.Rest()), n, t.props).value == (now.props, inp.Rest())
  {
    hide Input.Valid, Input.Rest, ReadProp, DataTable.Is, PutProp;
    ghost var s := inp.Rest();
    now := t;
    var i := 0;
    while i < n
      invariant i <= n && inp.Valid() && table.Is(now) && now.name == t.name && now.children == t.children
      invariant ReadProps(s, i, t.props) == Some((now.props, inp.Rest()))
    {
      ok := ReadProperty(inp, table, now);
      if !ok {
        NoProps(s, t.props, i, n);
        return;
      }
      now := now.(props := PutProp(now.props, ReadProp(ReadProps(s, i, t.props).value.1).value.0));
      i := i + 1;
    }
    ok := true;
  }

  lemma {:induction false} NoProps(s: seq<byte>, props: seq<Property>, i: nat, n: nat)
    requires i < n && ReadProps(s, i + 1, props).None?
    ensures ReadProps(s, n, props).None?
    decreases n
  {
    hide ReadProp, PutProp;
    if i + 1 < n {
      NoProps(s, props, i, n - 1);
    }
  }

  /** `_ReadDataTableRaw`. On failure the table holds what was read until then. */
  method ReadInto(inp: Input, table: DataTable, ghost t: Table) returns (ok: bool, ghost now: Table)
    requires inp.Valid() && table.Is(t)
    modifies inp.Objects(), table.repr
    ensures inp.Valid() && table.Is(now) && fresh(table.repr - old(table.repr)) && table.parent == old(table.parent)
    ensures ok <==> ReadTable(old(inp.Rest()), t).Some?
    ensures ok ==> ReadTable(old(inp.Rest()), t).value == (now, inp.Rest())
    decreases |inp.Rest()|, 0, 0
  {
    hide Input.Valid, Input.Rest, ReadText, ReadProps, ReadChildren, ReadLE32, DataTable.Is, UniqueProps;
    now := t;
    ghost var s := inp.Rest();
    var version := ReadInt(inp);
    if version != RAW {
      return false, now;
    }
    VersionTakesBytes(s);
    table.Parts(t);
    var name := ReadString(inp);
    table.SetName(name, t);
    var _ := ReadString(inp);
    var numProps := ReadInt(inp);
    ok, now := ReadProperties(inp, numProps, table, t.(name := name));
    if !ok {
      return;
    }
    var numChildren := ReadInt(inp);
    ok, now := ReadChildTables(inp, numChildren, table, now);
  }

  method ReadChildTables(inp: Input, n: nat, table: DataTable, ghost t: Table) returns (ok: bool, ghost now: Table)
    requires inp.Valid() && table.Is(t)
    modifies inp.Objects(), table.repr
    ensures inp.Valid() && table.Is(now) && fresh(table.repr - old(table.repr)) && table.parent == old(table.parent)
    ensures ok <==> ReadChildren(old(inp.Rest()), n, t.children).Some?
    ensures ok ==> now.name == t.name && now.props == t.props
    ensures ok ==> ReadChildren(old(inp.Rest()), n, t.children).value == (now.children, inp.Rest())
    decreases |inp.Rest()|, 1, n
  {
    hide Input.Valid, Input.Rest, ReadTable, DataTable.Is, UniqueProps;
    ghost var s := inp.Rest();
    now := t;
    var i := 0;
    while i < n
      invariant i <= n && inp.Valid() && table.Is(now) && now.name == t.name && now.props == t.props
      invariant fresh(table.repr - old(table.repr)) && table.parent == old(table.parent)
      invariant ReadChildren(s, i, t.children) == Some((now.children, inp.Rest()))
    {
      table.Parts(now);
      var child := new DataTable("");
      ghost var c;
      ok, c := ReadInto(inp, child, EMPTY);
      if !ok {
        NoChildTables(s, t.children, i, n);
        return;
      }
      table.AddChild(child, now, c);
      now := now.(children := now.children + [c]);
      i := i + 1;
    }
    ok := true;
  }

  lemma {:induction false} NoChildTables(s: seq<byte>, children: seq<Table>, i: nat, n: nat)
    requires i < n && ReadChildren(s, i + 1, children).None?
    ensures ReadChildren(s, n, children).None?
    decreases n
  {
    hide ReadTable;
    if i + 1 < n {
      NoChildTables(s, children, i, n - 1);
    }
  }

  // ---- Files of tables -----------------------------------------------------------------------------------

  /** `DataTableSerialize_Write` at the end of a file: a version, then the tree, whose own version
      follows; in the zipped form after the version once more and as blocks. */
  method Save(fp: DynamicMem, table: DataTable, version: nat, codec: Codec, bufferSize: nat, ghost t: Table)
    returns (ok: bool, ghost blocks: seq<seq<byte>>)
    requires fp.Valid() && fp.here == fp.stop && CodecOK(codec) && bufferSize > 0
    requires table.Is(t) && Storable(t)
    modifies fp
    ensures fp.Valid() && fp.here == fp.stop
    ensures ok <==> (version == RAW || version == RAW_ZIP) && TableBytes(t).Some?
    ensures ok && version == RAW ==> fp.Contents() == old(fp.Contents()) + LE32(RAW) + TableBytes(t).value
    ensures ok && version == RAW_ZIP ==>
      && fp.Contents() == old(fp.Contents()) + LE32(RAW_ZIP) + LE32(RAW_ZIP) + Frames(codec, blocks)
      && Flat(blocks) == TableBytes(t).value
      && forall raw :: raw in blocks ==> raw != [] && |raw| < bufferSize + Width(t)
  {
    hide Storable, TableBytes, DataTable.Is, Flat, Frames, Frame, CodecOK, LE32, Overwrite;
    blocks := [];
    if version != RAW && version != RAW_ZIP {
      return false, blocks;
    }
    AppendLE32(fp, version);
    if version == RAW {
      ok := SaveRaw(fp, table, t);
    } else {
      AppendLE32(fp, RAW_ZIP);
      ok, blocks := SaveBlocks(fp, table, codec, bufferSize, t);
    }
  }

  method AppendLE32(fp: DynamicMem, n: nat)
    requires fp.Valid() && fp.here == fp.stop
    modifies fp
    ensures fp.Valid() && fp.here == fp.stop && fp.Contents() == old(fp.Contents()) + LE32(n)
  {
    hide LE32;
    var _ := fp.WriteRaw(LE32(n));
  }

  method SaveRaw(fp: DynamicMem, table: DataTable, ghost t: Table) returns (ok: bool)
    requires fp.Valid() && fp.here == fp.stop && table.Is(t) && Storable(t)
    modifies fp
    ensures fp.Valid() && fp.here == fp.stop && (ok <==> TableBytes(t).Some?)
    ensures ok ==> fp.Contents() == old(fp.Contents()) + TableBytes(t).value
  {
    hide Storable, TableBytes, DataTable.Is;
    var out := new Output.Plain(fp, Width(t));
    ok := WriteTable(out, table, t);
  }

  /** The encoder is closed, and so flushed, when its file object is released. */
  method SaveBlocks(fp: DynamicMem, table: DataTable, codec: Codec, bufferSize: nat, ghost t: Table)
    returns (ok: bool, ghost blocks: seq<seq<byte>>)
    requires fp.Valid() && fp.here == fp.stop && CodecOK(codec) && bufferSize > 0 && table.Is(t) && Storable(t)
    modifies fp
    ensures fp.Valid() && fp.here == fp.stop && fp.Contents() == old(fp.Contents()) + Frames(codec, blocks)
    ensures ok <==> TableBytes(t).Some?
    ensures ok ==> Flat(blocks) == TableBytes(t).value
    ensures forall raw :: raw in blocks ==> raw != [] && |raw| < bufferSize + Width(t)
  {
    hide Storable, TableBytes, DataTable.Is, Flat, Frames, Frame, CodecOK;
    var encoder := new Encoder(fp, codec, bufferSize);
    var out := new Output.Zipped(encoder, Width(t));
    ok := WriteTable(out, table, t);
    encoder.Invalidate();
    blocks := encoder.blocks;
  }

  /** `DataTableSerialize_Read`, with the decoder's view of what follows a zipped header. */
  method Load(fp: DynamicMem, table: DataTable, codec: Codec, ghost into: Table, ghost blocks: seq<seq<byte>>)
    returns (ok: bool, ghost now: Table)
    requires fp.Valid() && fp.here <= fp.stop && CodecOK(codec) && table.Is(into)
    requires var s := From(fp.Contents(), fp.here);
             ReadLE32(s) == RAW_ZIP && ReadLE32(Drop(s, 4)) == RAW_ZIP ==>
               |s| >= 8 && From(fp.Contents(), fp.here + 8) == Frames(codec, blocks) &&
                   forall raw :: raw in blocks ==> BlockOK(codec, raw)
    modifies fp, table.repr
    ensures table.Is(now) && fresh(table.repr - old(table.repr)) && table.parent == old(table.parent)
    ensures var s := From(old(fp.Contents()), old(fp.here));
            var r := if ReadLE32(s) == RAW then ReadTable(Drop(s, 4), into)
                     else if ReadLE32(s) == RAW_ZIP && ReadLE32(Drop(s,
                         4)) == RAW_ZIP then ReadTable(Flat(blocks), into)
                     else None;
            (ok <==> r.Some?) && (ok ==> now == r.value.0)
  {
    hide ReadTable, DataTable.Is, Flat, Frames, CodecOK, BlockOK, ReadLE32;
    ghost var file, start := fp.Contents(), fp.here;
    now := into;
    var version := ReadWord(fp);
    if version == RAW {
      var inp := new Input.Plain(fp);
      ok, now := ReadInto(inp, table, into);
    } else if version == RAW_ZIP {
      var again := ReadWord(fp);
      if again != RAW_ZIP {
        return false, now;
      }
      TwoWords(file, start);
      ok, now := LoadBlocks(fp, table, codec, into, blocks);
    } else {
      ok := false;
    }
  }

  lemma TwoWords(file: seq<byte>, p: nat)
    ensures Drop(From(file, p), 8) == From(file, p + 8) && Drop(Drop(From(file, p), 4), 4) == From(file, p + 8)
  {
  }

  method ReadWord(fp: DynamicMem) returns (v: nat)
    requires fp.Valid()
    modifies fp`here
    ensures fp.Valid() && fp.Contents() == old(fp.Contents())
    ensures v == ReadLE32(From(old(fp.Contents()), old(fp.here)))
    ensures From(fp.Contents(), fp.here) == Drop(From(old(fp.Contents()), old(fp.here)), 4)
    ensures |From(old(fp.Contents()), old(fp.here))| >= 4 ==> fp.here == old(fp.here) + 4
  {
    hide FromLE32;
    var out := fp.ReadRaw(4);
    ReadIsTake(fp.Contents(), old(fp.here), 4);
    v := FromLE32(out + Zeros(4 - |out|));
  }

  method LoadBlocks(fp: DynamicMem, table: DataTable, codec: Codec, ghost into: Table, ghost blocks: seq<seq<byte>>)
    returns (ok: bool, ghost now: Table)
    requires fp.Valid() && fp.here <= fp.stop && CodecOK(codec) && table.Is(into)
    requires WellFormed(fp.Contents(), fp.here, codec, blocks)
    modifies fp, table.repr
    ensures table.Is(now) && fresh(table.repr - old(table.repr)) && table.parent == old(table.parent)
    ensures ok <==> ReadTable(Flat(blocks), into).Some?
    ensures ok ==> now == ReadTable(Flat(blocks), into).value.0
  {
    hide ReadTable, DataTable.Is, Flat, Frames, CodecOK, WellFormed;
    var decoder := new Decoder(fp, codec, 2048, blocks);
    var inp := new Input.Zipped(decoder);
    assert inp.Rest() == Flat(blocks);
    ok, now := ReadInto(inp, table, into);
  }

  /** The tables a table object stands for have distinct properties. */
  lemma {:induction false} IsProper(table: DataTable, t: Table)
    requires table.Is(t)
    ensures Proper(t)
    decreases t
  {
    table.Parts(t);
    forall i | 0 <= i < |t.children| ensures Proper(t.children[i]) {
      IsProper(table.children[i], t.children[i]);
    }
  }

  /** Saving a table at the end of a file, in either form, and loading it into a new table gives a
      tree of equal structure, missing metadata having become empty. It fails exactly when some value
      cannot be saved. */
  method SaveThenLoad(fp: DynamicMem, table: DataTable, version: nat, codec: Codec, bufferSize: nat, ghost t: Table)
    returns (ok: bool, copy: DataTable)
    requires fp.Valid() && fp.here == fp.stop && CodecOK(codec) && bufferSize > 0
    requires table.Is(t) && Storable(t) && (version == RAW || version == RAW_ZIP)
    requires forall raw: seq<byte> :: 0 < |raw| < bufferSize + Width(t) ==> BlockOK(codec, raw)
    modifies fp
    ensures table.Is(t) && fresh(copy.repr)
    ensures ok <==> TableBytes(t).Some?
    ensures ok ==> copy.Is(Normal(t)) && SameBut(t, Normal(t))
    ensures ok && AllMeta(t) ==> copy.Is(t)
  {
    hide Storable, TableBytes, ReadTable, DataTable.Is, Flat, Frames, Frame, CodecOK, BlockOK, LE32, ReadLE32,
        Normal, Width, SameBut, AllMeta;
    NormalKeeps(t);
    if AllMeta(t) {
      SameIfAllMeta(t, Normal(t));
    }
    IsProper(table, t);
    var start := fp.Tell();
    ghost var blocks, now;
    copy := new DataTable("");
    ok, blocks := Save(fp, table, version, codec, bufferSize, t);
    if !ok {
      return;
    }
    ghost var file := fp.Contents();
    fp.SeekSet(start);
    ghost var tree := TableBytes(t).value;
    ReadBackTree(t, []);
    assert tree + [] == tree;
    if version == RAW {
      assert From(file, start) == LE32(RAW) + tree;
      ReadBackLE32(RAW, tree);
    } else {
      assert From(file, start) == LE32(RAW_ZIP) + (LE32(RAW_ZIP) + Frames(codec, blocks));
      assert From(file, start + 8) == Frames(codec, blocks);
      ReadBackLE32(RAW_ZIP, LE32(RAW_ZIP) + Frames(codec, blocks));
      ReadBackLE32(RAW_ZIP, Frames(codec, blocks));
    }
    ok, now := Load(fp, copy, codec, EMPTY, blocks);
  }
}
