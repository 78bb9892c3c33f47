/** The binary form of data tables, as functions on bytes. */
module TableFormat {
  import opened Wrappers
  import opened BitNumbers
  import opened MemFile
  import opened BlockFile
  import opened Tables

  const RAW: nat := 0x020001
  const RAW_ZIP: nat := 0x020101

  const NULL_CODE: nat := 0
  const OBJECT_CODE: nat := 1
  const STRING_CODE: nat := 0x32

  /** The bytes a value of a type takes in the file, for the types that are saved as plain numbers:
      integers and floats, vectors of two to four of them, and matrices. */
  function SizeOf(code: nat): Option<nat> {
    if code == 0x10 || code == 0x11 then Some(1)
    else if code == 0x12 || code == 0x13 then Some(2)
    else if 0x14 <= code <= 0x16 then Some(4)
    else if 0x20 <= code <= 0x24 then Some(8)
    else if code == 0x30 || code == 0x31 then Some(12)
    else if code == 0x40 || code == 0x41 then Some(16)
    else if code == 0x50 then Some(64)
    else None
  }

  /** The types that are saved as plain numbers. */
  datatype NumberType =
    | I8 | U8 | I16 | U16 | I32 | U32 | F32 | I64 | U64 | F64
    | Vec2f | Vec2i | Vec3f | Vec3i | Vec4f | Vec4i | Matrixf

  /** `eType`. */
  function TypeCode(t: NumberType): nat {
    match t
    case I8 => 0x10
    case U8 => 0x11
    case I16 => 0x12
    case U16 => 0x13
    case I32 => 0x14
    case U32 => 0x15
    case F32 => 0x16
    case I64 => 0x20
    case U64 => 0x21
    case F64 => 0x22
    case Vec2f => 0x23
    case Vec2i => 0x24
    case Vec3f => 0x30
    case Vec3i => 0x31
    case Vec4f => 0x40
    case Vec4i => 0x41
    case Matrixf => 0x50
  }

  /** The bytes of one number, and how many there are. */
  function NumberBytes(t: NumberType): nat {
    if t.I8? || t.U8? then 1 else if t.I16? || t.U16? then 2 else if t.I64? || t.U64? || t.F64? then 8 else 4
  }

  function Numbers(t: NumberType): nat {
    match t
    case Vec2f => 2
    case Vec2i => 2
    case Vec3f => 3
    case Vec3i => 3
    case Vec4f => 4
    case Vec4i => 4
    case Matrixf => 16
    case _ => 1
  }

  /** Exactly these types are saved as numbers, each with the bytes of all of its numbers, and no other
      kind of value has their codes. */
  lemma TypeSizes(code: nat)
    ensures SizeOf(code).Some? <==> exists t :: TypeCode(t) == code
    ensures forall t :: TypeCode(t) == code ==> SizeOf(code) == Some(Numbers(t) * NumberBytes(t))
    ensures SizeOf(code).Some? ==> code !in {NULL_CODE, OBJECT_CODE, STRING_CODE}
  {
    if SizeOf(code).Some? {
      assert TypeCode(TypeOf(code)) == code;
    }
  }

  function TypeOf(code: nat): NumberType {
    if code == 0x10 then I8 else if code == 0x11 then U8 else if code == 0x12 then I16 else if code == 0x13 then U16
    else if code == 0x14 then I32 else if code == 0x15 then U32 else if code == 0x16 then F32
    else if code == 0x20 then I64 else if code == 0x21 then U64 else if code == 0x22 then F64
    else if code == 0x23 then Vec2f else if code == 0x24 then Vec2i
    else if code == 0x30 then Vec3f else if code == 0x31 then Vec3i
    else if code == 0x40 then Vec4f else if code == 0x41 then Vec4i else Matrixf
  }

  // ---- Writing -----------------------------------------------------------------------------------

  /** A C string, one character to a byte: beyond ASCII a character stands for a byte of UTF-8 text. */
  predicate IsText(s: string) {
    forall i :: 0 <= i < |s| ==> 0 < s[i] as int < 256
  }

  function TextBytes(s: string): (b: seq<byte>)
    requires IsText(s)
    ensures |b| == |s|
  {
    seq(|s|, i requires 0 <= i < |s| => s[i] as int)
  }

  function TextOf(b: seq<byte>): (s: string)
    ensures |s| == |b|
  {
    seq(|b|, i requires 0 <= i < |b| => b[i] as char)
  }

  function ZString(s: string): (b: seq<byte>)
    requires IsText(s)
    ensures |b| == |s| + 1
  {
    TextBytes(s) + [0]
  }

  predicate VarOK(v: Var) {
    match v
    case Scalar(code, bits) => SizeOf(code).Some? ==> |bits| == SizeOf(code).value
    case Str(text) => IsText(text)
    case _ => true
  }

  function MetaText(meta: Option<string>): string {
    if meta.None? then "" else meta.value
  }

  predicate PropOK(p: Property) {
    IsText(p.name) && VarOK(p.value) && IsText(MetaText(p.meta))
  }

  /** What the format can hold: single-byte strings and counts of 32 bits. */
  predicate Storable(t: Table) {
    && IsText(t.name) && |t.props| < TWO32 && |t.children| < TWO32
    && (forall i :: 0 <= i < |t.props| ==> PropOK(t.props[i]))
    && (forall i :: 0 <= i < |t.children| ==> Storable(t.children[i]))
  }

  /** None for the values that cannot be saved. */
  function VarBytes(v: Var): Option<seq<byte>>
    requires VarOK(v)
  {
    match v
    case Null => Some(LE32(NULL_CODE))
    case Scalar(code, bits) => if SizeOf(code).Some? then Some(LE32(code) + bits) else None
    case Str(text) => Some(LE32(STRING_CODE) + ZString(text))
    case Object(_) => None
  }

  function PropBytes(p: Property): Option<seq<byte>>
    requires PropOK(p)
  {
    if VarBytes(p.value).None? then None
    else Some(ZString(p.name) + VarBytes(p.value).value + ZString(MetaText(p.meta)))
  }

  function PropsBytes(props: seq<Property>): Option<seq<byte>>
    requires forall i :: 0 <= i < |props| ==> PropOK(props[i])
  {
    if props == [] then Some([])
    else Joined(PropsBytes(props[..|props| - 1]), PropBytes(props[|props| - 1]))
  }

  function Joined(a: Option<seq<byte>>, b: Option<seq<byte>>): Option<seq<byte>> {
    if a.None? || b.None? then None else Some(a.value + b.value)
  }

  /** A table: version, name, an empty string where metadata once was, properties, children. */
  function TableBytes(t: Table): Option<seq<byte>>
    requires Storable(t)
    decreases t, 1, 0
  {
    Joined(Some(HeadBytes(t)),
           Joined(PropsBytes(t.props), Joined(Some(LE32(|t.children|)), ChildrenBytes(t, |t.children|))))
  }

  function HeadBytes(t: Table): seq<byte>
    requires IsText(t.name)
  {
    LE32(RAW) + ZString(t.name) + ZString("") + LE32(|t.props|)
  }

  /** Versions 2.0.1 and 2.1.1, and the code of strings, as they lie in a file. */
  lemma CodeBytes()
    ensures LE32(RAW) == [1, 0, 2, 0] && LE32(RAW_ZIP) == [1, 1, 2, 0]
    ensures LE32(NULL_CODE) == [0, 0, 0, 0] && LE32(OBJECT_CODE) == [1, 0, 0, 0] && LE32(STRING_CODE) == [50, 0, 0, 0]
  {
  }

  /** The first `n` children. */
  function ChildrenBytes(t: Table, n: nat): Option<seq<byte>>
    requires Storable(t) && n <= |t.children|
    decreases t, 0, n
  {
    if n == 0 then Some([]) else Joined(ChildrenBytes(t, n - 1), TableBytes(t.children[n - 1]))
  }

  // ---- Reading -----------------------------------------------------------------------------------

  /** The next `n` bytes, zeros where the file has ended, and the bytes after them. */
  function Take(s: seq<byte>, n: nat): (r: seq<byte>)
    ensures |r| == n
  {
    if |s| >= n then s[..n] else s + Zeros(n - |s|)
  }

  function Drop(s: seq<byte>, n: nat): (r: seq<byte>)
    ensures |r| <= |s|
  {
    if |s| >= n then s[n..] else []
  }

  function ReadLE32(s: seq<byte>): nat {
    FromLE32(Take(s, 4))
  }

  /** The length of the string at the front: up to the first zero or to the end. */
  function TextLength(s: seq<byte>): (n: nat)
    ensures n <= |s| && forall i :: 0 <= i < n ==> s[i] != 0
    ensures n < |s| ==> s[n] == 0
  {
    if s == [] || s[0] == 0 then 0 else 1 + TextLength(s[1..])
  }

  function ReadText(s: seq<byte>): (r: (string, seq<byte>))
    ensures |r.1| <= |s|
  {
    var n := TextLength(s);
    (TextOf(s[..n]), Drop(s, n + 1))
  }

  function ReadVar(s: seq<byte>): (r: Option<(Var, seq<byte>)>)
    ensures r.Some? ==> |r.value.1| <= |s|
  {
    var code := ReadLE32(s) % 256;
    var s1 := Drop(s, 4);
    if code == OBJECT_CODE then None
    else if code == NULL_CODE then Some((Null, s1))
    else if code == STRING_CODE then
      var (text, s2) := ReadText(s1);
      Some((Str(text), s2))
    else if SizeOf(code).Some? then Some((Scalar(code, Take(s1, SizeOf(code).value)), Drop(s1, SizeOf(code).value)))
    else None
  }

  function ReadProp(s: seq<byte>): (r: Option<(Property, seq<byte>)>)
    ensures r.Some? ==> |r.value.1| <= |s|
  {
    var (name, s1) := ReadText(s);
    var r := ReadVar(s1);
    if r.None? then None
    else
      var (value, s2) := r.value;
      var (meta, s3) := ReadText(s2);
      Some((Property(name, value, Some(meta)), s3))
  }

  /** Reads `n` properties, each set on the table as it is read. */
  function ReadProps(s: seq<byte>, n: nat, props: seq<Property>): (r: Option<(seq<Property>, seq<byte>)>)
    ensures r.Some? ==> |r.value.1| <= |s|
    decreases n
  {
    if n == 0 then Some((props, s))
    else
      var r := ReadProps(s, n - 1, props);
      if r.None? then None
      else
        var p := ReadProp(r.value.1);
        if p.None? then None else Some((PutProp(r.value.0, p.value.0), p.value.1))
  }

  const EMPTY := Table("", [], [])

  /** Reads a table into `into`: the name is replaced, properties are set, children are added. */
  function ReadTable(s: seq<byte>, into: Table): (r: Option<(Table, seq<byte>)>)
    ensures r.Some? ==> |r.value.1| <= |s|
    decreases |s|, 0, 0
  {
    if ReadLE32(s) != RAW then None
    else
      VersionTakesBytes(s);
      var (name, s1) := ReadText(Drop(s, 4));
      var (_, s2) := ReadText(s1);
      var r := ReadProps(Drop(s2, 4), ReadLE32(s2), into.props);
      if r.None? then None
      else
        var (props, s3) := r.value;
        var c := ReadChildren(Drop(s3, 4), ReadLE32(s3), into.children);
        if c.None? then None else Some((Table(name, props, c.value.0), c.value.1))
  }

  function ReadChildren(s: seq<byte>, n: nat, children: seq<Table>): (r: Option<(seq<Table>, seq<byte>)>)
    ensures r.Some? ==> |r.value.1| <= |s|
    decreases |s|, 1, n
  {
    if n == 0 then Some((children, s))
    else
      var r := ReadChildren(s, n - 1, children);
      if r.None? then None
      else
        var t := ReadTable(r.value.1, EMPTY);
        if t.None? then None else Some((r.value.0 + [t.value.0], t.value.1))
  }

  lemma VersionTakesBytes(s: seq<byte>)
    requires ReadLE32(s) == RAW
    ensures |Drop(s, 4)| < |s|
  {
    NothingReadsZero();
  }

  lemma NothingReadsZero()
    ensures ReadLE32([]) == 0
  {
    assert Take([], 4) == [0, 0, 0, 0];
  }

  // ---- Reading back what was written -----------------------------------------------------------------

  /** The format does not tell missing metadata from empty metadata. */
  function NormalProp(p: Property): Property {
    p.(meta := Some(MetaText(p.meta)))
  }

  function NormalProps(props: seq<Property>): (r: seq<Property>)
    ensures |r| == |props|
  {
    seq(|props|, i requires 0 <= i < |props| => NormalProp(props[i]))
  }

  function Normal(t: Table): Table {
    Table(t.name, NormalProps(t.props), seq(|t.children|, i requires 0 <= i < |t.children| => Normal(t.children[i])))
  }

  /** Two trees are the same but for metadata that one lacks and the other has empty. */
  ghost predicate SameBut(t: Table, n: Table)
    decreases t
  {
    && n.name == t.name && |n.props| == |t.props| && |n.children| == |t.children|
    && (forall i :: 0 <= i < |t.props| ==> SamePropBut(t.props[i], n.props[i]))
    && (forall i :: 0 <= i < |t.children| ==> SameBut(t.children[i], n.children[i]))
  }

  ghost predicate SamePropBut(p: Property, q: Property) {
    && q.name == p.name && q.value == p.value
    && q.meta == if p.meta == None then Some("") else p.meta
  }

  /** Every property has metadata. */
  ghost predicate AllMeta(t: Table) {
    && (forall i :: 0 <= i < |t.props| ==> t.props[i].meta.Some?)
    && (forall i :: 0 <= i < |t.children| ==> AllMeta(t.children[i]))
  }

  /** What is read back keeps every name, value and metadata in its place, and only missing metadata
      becomes empty. */
  lemma {:induction false} NormalKeeps(t: Table)
    ensures SameBut(t, Normal(t))
    decreases t
  {
    forall i | 0 <= i < |t.children| ensures SameBut(t.children[i], Normal(t).children[i]) {
      NormalKeeps(t.children[i]);
    }
  }

  lemma {:induction false} SameIfAllMeta(t: Table, n: Table)
    requires SameBut(t, n) && AllMeta(t)
    ensures n == t
    decreases t
  {
    assert forall i :: 0 <= i < |t.props| ==> SamePropBut(t.props[i], n.props[i]);
    forall i | 0 <= i < |t.children| ensures n.children[i] == t.children[i] {
      SameIfAllMeta(t.children[i], n.children[i]);
    }
    assert n.props == t.props && n.children == t.children;
  }

  lemma ReadBackLE32(n: nat, rest: seq<byte>)
    requires n < TWO32
    ensures ReadLE32(LE32(n) + rest) == n && Drop(LE32(n) + rest, 4) == rest
  {
    LE32RoundTrip(n);
    assert (LE32(n) + rest)[..4] == LE32(n);
  }

  lemma {:induction false} LengthOfText(b: seq<byte>, rest: seq<byte>)
    requires forall i :: 0 <= i < |b| ==> b[i] != 0
    ensures TextLength(b + [0] + rest) == |b|
    decreases |b|
  {
    if b != [] {
      LengthOfText(b[1..], rest);
      assert (b + [0] + rest)[1..] == b[1..] + [0] + rest;
    }
  }

  lemma ReadBackText(text: string, rest: seq<byte>)
    requires IsText(text)
    ensures ReadText(ZString(text) + rest) == (text, rest)
  {
    var b := TextBytes(text);
    assert ZString(text) + rest == b + [0] + rest;
    LengthOfText(b, rest);
    assert (b + [0] + rest)[..|b|] == b;
    assert TextOf(b) == text;
    assert (b + [0] + rest)[|b| + 1..] == rest;
  }

  lemma ReadBackVar(v: Var, rest: seq<byte>)
    requires VarOK(v) && VarBytes(v).Some?
    ensures ReadVar(VarBytes(v).value + rest) == Some((v, rest))
  {
    hide ReadText, ZString, LE32, ReadLE32;
    var s := VarBytes(v).value + rest;
    match v {
      case Null =>
        ReadBackLE32(NULL_CODE, rest);
      case Scalar(code, bits) =>
        assert s == LE32(code) + (bits + rest);
        ReadBackLE32(code, bits + rest);
        assert (bits + rest)[..|bits|] == bits && (bits + rest)[|bits|..] == rest;
      case Str(text) =>
        assert s == LE32(STRING_CODE) + (ZString(text) + rest);
        ReadBackLE32(STRING_CODE, ZString(text) + rest);
        ReadBackText(text, rest);
      case Object(_) =>
    }
  }

  lemma ReadBackProp(p: Property, rest: seq<byte>)
    requires PropOK(p) && PropBytes(p).Some?
    ensures ReadProp(PropBytes(p).value + rest) == Some((NormalProp(p), rest))
  {
    hide ReadText, ReadVar, ZString, VarBytes;
    var a, b, c := ZString(p.name), VarBytes(p.value).value, ZString(MetaText(p.meta));
    assert PropBytes(p).value + rest == a + (b + (c + rest));
    ReadBackText(p.name, b + (c + rest));
    ReadBackVar(p.value, c + rest);
    ReadBackText(MetaText(p.meta), rest);
  }

  lemma {:induction false} ReadBackProps(into: seq<Property>, props: seq<Property>, rest: seq<byte>)
    requires (forall i :: 0 <= i < |props| ==> PropOK(props[i])) && PropsBytes(props).Some?
    ensures ReadProps(PropsBytes(props).value + rest, |props|, into) == Some((PutAll(into, NormalProps(props)), rest))
    decreases |props|
  {
    hide PutProp, PropBytes, ReadProp, PropOK, NormalProp;
    if props == [] {
      assert PropsBytes(props).value + rest == rest;
    } else {
      var n := |props| - 1;
      var first, last := PropsBytes(props[..n]).value, PropBytes(props[n]).value;
      assert PropsBytes(props).value + rest == first + (last + rest);
      ReadBackProps(into, props[..n], last + rest);
      ReadBackProp(props[n], rest);
      assert NormalProps(props)[..n] == NormalProps(props[..n]);
    }
  }

  /** What a table holds after a table like `t` was read into it. */
  function Loaded(into: Table, t: Table): Table {
    Table(t.name, PutAll(into.props, Normal(t).props), into.children + Normal(t).children)
  }

  lemma LoadedEmpty(t: Table)
    requires Proper(t)
    ensures Loaded(EMPTY, t) == Normal(t)
  {
    var props := Normal(t).props;
    PutAllFromEmpty(props, |props|);
    assert props[..|props|] == props;
  }

  lemma {:induction false} ReadBackChildren(into: seq<Table>, t: Table, n: nat, rest: seq<byte>)
    requires Storable(t) && Proper(t) && n <= |t.children| && ChildrenBytes(t, n).Some?
    ensures ReadChildren(ChildrenBytes(t, n).value + rest, n, into) == Some((into + Normal(t).children[..n], rest))
    decreases t, 0, n
  {
    hide ReadTable, TableBytes;
    if n == 0 {
      assert ChildrenBytes(t, n).value + rest == rest;
      assert into + Normal(t).children[..n] == into;
    } else {
      var first, last := ChildrenBytes(t, n - 1).value, TableBytes(t.children[n - 1]).value;
      assert ChildrenBytes(t, n).value + rest == first + (last + rest);
      ReadBackChildren(into, t, n - 1, last + rest);
      ReadBackTable(EMPTY, t.children[n - 1], rest);
      LoadedEmpty(t.children[n - 1]);
      assert Normal(t).children[..n] == Normal(t).children[..n - 1] + [Normal(t.children[n - 1])];
      assert into + Normal(t).children[..n] == into + Normal(t).children[..n - 1] + [Normal(t.children[n - 1])];
    }
  }

  /** The form is self-delimiting: reading a written table back, whatever bytes follow it, adds
      exactly that table and leaves exactly those bytes. */
  lemma {:induction false} ReadBackTable(into: Table, t: Table, rest: seq<byte>)
    requires Storable(t) && Proper(t) && TableBytes(t).Some?
    ensures ReadTable(TableBytes(t).value + rest, into) == Some((Loaded(into, t), rest))
    decreases t, 1, 0
  {
    hide ReadText, ReadProps, ReadChildren, ZString, LE32, ReadLE32, PropsBytes, ChildrenBytes, PutAll;
    var name, none, count := ZString(t.name), ZString(""), LE32(|t.props|);
    var props, childCount, children := PropsBytes(t.props).value, LE32(|t.children|), ChildrenBytes(t,
        |t.children|).value;
    var s3 := childCount + (children + rest);
    var s2 := count + (props + s3);
    var s1 := none + s2;
    var s := LE32(RAW) + (name + s1);
    Layout(LE32(RAW), name, none, count, props, childCount, children, rest);
    assert TableBytes(t).value + rest == s;
    ReadBackLE32(RAW, name + s1);
    ReadBackText(t.name, s1);
    ReadBackText("", s2);
    ReadBackLE32(|t.props|, props + s3);
    ReadBackProps(into.props, t.props, s3);
    ReadBackLE32(|t.children|, children + rest);
    ReadBackChildren(into.children, t, |t.children|, rest);
    assert Normal(t).children[..|t.children|] == Normal(t).children;
  }

  lemma Layout(a: seq<byte>, b: seq<byte>, c: seq<byte>, d: seq<byte>, e: seq<byte>, f: seq<byte>,
      g: seq<byte>, h: seq<byte>)
    ensures (a + b + c + d) + (e + (f + g)) + h == a + (b + (c + (d + (e + (f + (g + h))))))
  {
  }

  /** In particular a tree read into an empty table is the tree written. */
  lemma ReadBackTree(t: Table, rest: seq<byte>)
    requires Storable(t) && Proper(t) && TableBytes(t).Some?
    ensures ReadTable(TableBytes(t).value + rest, EMPTY) == Some((Normal(t), rest))
  {
    hide ReadTable, TableBytes;
    ReadBackTable(EMPTY, t, rest);
    LoadedEmpty(t);
  }
}
