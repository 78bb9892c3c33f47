/** Scripts that mix bit writes, raw writes and section ends, and their replay by the matching reads. */
module BitScript {
  import opened BitNumbers
  import opened MemFile
  import opened BitIO

  datatype Item =
    | Bits(v: nat, n: nat, invert: bool)
    | Raw(bytes: seq<byte>)
    | EndBits

  /** What the replay reports for an item. */
  datatype Out = Value(v: nat) | Block(bytes: seq<byte>) | Section(size: int)

  /** The bits of the open section after an item; NONE when no section is open. */
  function SectionAfter(item: Item, sb: int): (r: int)
    requires sb >= NONE
    ensures r >= NONE
  {
    match item
    case Bits(_, n, _) => if n == 0 then sb else (if sb == NONE then 0 else sb) + n
    case Raw(bytes) => if bytes == [] then sb else NONE
    case EndBits => NONE
  }

  function Expected(items: seq<Item>, sb: int): (r: seq<Out>)
    requires sb >= NONE
    ensures |r| == |items|
  {
    if items == [] then []
    else
      var out := match items[0]
        case Bits(v, n, _) => Value(v % Pow2(n))
        case Raw(bytes) => Block(bytes)
        case EndBits => Section(SectionSize(sb));
      [out] + Expected(items[1..], SectionAfter(items[0], sb))
  }

  /** A section of B bits takes ceil(B / 8) bytes. */
  function SectionSize(sb: int): int
    requires sb >= NONE
  {
    if sb == NONE then NONE else (sb + 7) / 8
  }

  function Fill(sb: int): (n: nat)
    requires sb >= NONE
    ensures n < 8
  {
    if sb == NONE then 0 else SectionSize(sb) * 8 - sb
  }

  function Zeroes(n: nat): (r: seq<bool>)
    ensures |r| == n
  {
    seq(n, _ => false)
  }

  /** The bits a script adds to the file, padding included. */
  function Image(items: seq<Item>, sb: int): seq<bool>
    requires sb >= NONE
  {
    if items == [] then []
    else ItemImage(items[0], sb) + Image(items[1..], SectionAfter(items[0], sb))
  }

  function ItemImage(item: Item, sb: int): seq<bool>
    requires sb >= NONE
  {
    match item
    case Bits(v, n, invert) => Emitted(v, n, invert)
    case Raw(bytes) => if bytes == [] then [] else Zeroes(Fill(sb)) + BitsOf(bytes)
    case EndBits => Zeroes(Fill(sb))
  }

  /** One item of a script at a time. */
  lemma ScriptStep(items: seq<Item>, i: nat, sb: int)
    requires i < |items| && sb >= NONE
    ensures var sb' := SectionAfter(items[i], sb);
            && Image(items[i..], sb) == ItemImage(items[i], sb) + Image(items[i + 1..], sb')
            && Expected(items[i..], sb) == Expected([items[i]], sb) + Expected(items[i + 1..], sb')
  {
    hide ItemImage;
    assert items[i..][1..] == items[i + 1..];
    assert [items[i]][1..] == [];
    assert Expected([items[i]], sb)[0] == Expected(items[i..], sb)[0];
  }

  lemma ScriptEnds(items: seq<Item>, sb: int)
    requires sb >= NONE
    ensures items[0..] == items && items[|items|..] == [] && Image([], sb) == [] && Expected([], sb) == []
  {
  }

  // ---- Writing ------------------------------------------------------------------------------

  /** `f` has a write section of `sb` bits open. */
  ghost predicate WritingSection(f: BitFile, sb: int)
    requires f.Valid()
    reads f, f.base
  {
    if sb == NONE then f.writeCount == NONE
    else f.writeCount != NONE && sb == 8 * f.writeCount + 7 - f.writeBit
  }

  method WriteItem(f: BitFile, item: Item, ghost sb: int) returns (report: seq<Out>)
    requires f.Valid() && sb >= NONE && WritingSection(f, sb)
    modifies f, f.base
    ensures f.Valid() && WritingSection(f, SectionAfter(item, sb))
    ensures f.Written() == old(f.Written()) + ItemImage(item, sb)
    ensures old(f.base.here <= f.base.stop) ==> f.base.here <= f.base.stop
    ensures report == if item.EndBits? then [Section(SectionSize(sb))] else []
  {
    hide BitFile.Written, BitNumbers.BitsOf, BitIO.Emitted;
    report := [];
    match item {
      case Bits(v, n, invert) =>
        f.WriteBits(v, n, invert);
      case Raw(bytes) =>
        Regroup(f.Written(), Zeroes(Fill(sb)), BitsOf(bytes));
        var _ := f.WriteRaw(bytes);
      case EndBits =>
        var n := f.EndWriteBits();
        report := [Section(n)];
    }
  }

  lemma Regroup(xs: seq<bool>, ys: seq<bool>, zs: seq<bool>)
    ensures xs + ys + zs == xs + (ys + zs) && xs == xs + []
  {
  }

  function Reports(outs: seq<Out>): seq<Out> {
    if outs == [] then [] else (if outs[0].Section? then [outs[0]] else []) + Reports(outs[1..])
  }

  /** Plays a script by writing it; `EndWriteBits` reports each section's size. */
  method WriteScript(f: BitFile, items: seq<Item>) returns (reports: seq<Out>, ghost sb: int)
    requires f.Valid() && f.writeCount == NONE
    modifies f, f.base
    ensures f.Valid() && sb >= NONE && WritingSection(f, sb)
    ensures f.Written() == old(f.Written()) + Image(items, NONE)
    ensures reports == Reports(Expected(items, NONE))
    ensures old(f.base.here <= f.base.stop) ==> f.base.here <= f.base.stop
  {
    assert WritingSection(f, NONE);
    hide BitFile.Written, ItemImage, Image, Expected, WritingSection, SectionAfter;
    reports := [];
    sb := NONE;
    ScriptEnds(items, sb);
    ghost var start := f.Written();
    for i := 0 to |items|
      invariant f.Valid() && sb >= NONE && WritingSection(f, sb)
      invariant old(f.base.here <= f.base.stop) ==> f.base.here <= f.base.stop
      invariant f.Written() + Image(items[i..], sb) == start + Image(items, NONE)
      invariant reports + Reports(Expected(items[i..], sb)) == Reports(Expected(items, NONE))
    {
      ghost var sb' := SectionAfter(items[i], sb);
      ScriptStep(items, i, sb);
      Regroup(f.Written(), ItemImage(items[i], sb), Image(items[i + 1..], sb'));
      ReportsStep(items[i], sb, Expected(items[i + 1..], sb'), reports);
      var report := WriteItem(f, items[i], sb);
      reports := reports + report;
      sb := sb';
    }
    ScriptEnds(items, sb);
  }

  lemma ReportsStep(item: Item, sb: int, rest: seq<Out>, before: seq<Out>)
    requires sb >= NONE
    ensures var report := if item.EndBits? then [Section(SectionSize(sb))] else [];
            before + Reports(Expected([item], sb) + rest) == before + report + Reports(rest)
  {
    var outs := Expected([item], sb) + rest;
    assert outs[1..] == rest;
  }

  // ---- Reading ------------------------------------------------------------------------------

  /** `f` has a read section of `sb` bits open, at bit `c` of the file. */
  ghost predicate ReadingSection(f: BitFile, sb: int, c: int)
    requires f.Valid()
    reads f, f.base
  {
    && f.writeCount == NONE && f.Reading() && f.BitCursor() == c
    && if sb == NONE then f.readCount == NONE
       else f.readCount != NONE && sb == f.ReadSectionBits()
  }

  /** Bits `c` on of the file begin with `bits`. */
  ghost predicate Holds(file: seq<byte>, c: int, bits: seq<bool>) {
    0 <= c && c + |bits| <= 8 * |file| && BitsOf(file)[c..c + |bits|] == bits
  }

  lemma HoldsSplit(file: seq<byte>, c: int, xs: seq<bool>, ys: seq<bool>)
    requires Holds(file, c, xs + ys)
    ensures Holds(file, c, xs) && Holds(file, c + |xs|, ys)
  {
    var all := BitsOf(file);
    assert all[c..c + |xs|] == all[c..c + |xs + ys|][..|xs|];
    assert all[c + |xs|..c + |xs| + |ys|] == all[c..c + |xs + ys|][|xs|..];
  }

  /** Whole bytes found as bits are found as bytes. */
  lemma HoldsBytes(file: seq<byte>, p: nat, q: nat, bytes: seq<byte>)
    requires q == p + |bytes| && Holds(file, 8 * p, BitsOf(bytes))
    ensures q <= |file| && file[p..q] == bytes
  {
    hide BitNumbers.BitsOf;
    SameSlice(BitsOf(file), 8 * p, 8 * q, BitsOf(bytes));
    BitsOfSlice(file, p, q);
    BitsOfInjective(file[p..q], bytes);
  }

  lemma SameSlice(all: seq<bool>, i: nat, j: nat, bits: seq<bool>)
    requires j == i + |bits| <= |all| && all[i..i + |bits|] == bits
    ensures all[i..j] == bits
  {
  }

  lemma BitsOfSlice(file: seq<byte>, i: nat, j: nat)
    requires i <= j <= |file|
    ensures BitsOf(file[i..j]) == BitsOf(file)[8 * i..8 * j]
  {
    hide BitNumbers.BitsOf;
    var xs, ys, zs := SplitThree(file, i, j);
    BitsOfMiddle(xs, ys, zs);
  }

  lemma SplitThree(file: seq<byte>, i: nat, j: nat) returns (xs: seq<byte>, ys: seq<byte>, zs: seq<byte>)
    requires i <= j <= |file|
    ensures |xs| == i && |xs| + |ys| == j && ys == file[i..j] && xs + (ys + zs) == file
  {
    xs, ys, zs := file[..i], file[i..j], file[j..];
  }

  lemma BitsOfMiddle(xs: seq<byte>, ys: seq<byte>, zs: seq<byte>)
    ensures BitsOf(xs + (ys + zs))[8 * |xs|..8 * (|xs| + |ys|)] == BitsOf(ys)
  {
    hide BitNumbers.BitsOf;
    BitsOfConcat(xs, ys + zs);
    BitsOfConcat(ys, zs);
    Middle(BitsOf(xs), BitsOf(ys), BitsOf(zs));
  }

  lemma Middle(xs: seq<bool>, ys: seq<bool>, zs: seq<bool>)
    ensures (xs + (ys + zs))[|xs|..|xs| + |ys|] == ys
  {
  }

  /** The read that matches an item: same widths and lengths. */
  method ReadItem(f: BitFile, item: Item, ghost sb: int, ghost c: int) returns (out: Out)
    requires f.Valid() && sb >= NONE && ReadingSection(f, sb, c)
    requires Holds(f.File(), c, ItemImage(item, sb))
    modifies f, f.base
    ensures f.Valid() && f.File() == old(f.File())
    ensures ReadingSection(f, SectionAfter(item, sb), c + |ItemImage(item, sb)|)
    ensures out == Expected([item], sb)[0]
  {
    hide BitNumbers.Bit, BitNumbers.BitsOf, ReadingSection, Holds;
    match item {
      case Bits(v, n, invert) =>
        var r := ReadBitsItem(f, v, n, invert, sb, c);
        out := Value(r);
      case Raw(bytes) =>
        var r := ReadRawItem(f, |bytes|, bytes, sb, c);
        out := Block(r);
      case EndBits =>
        var n := ReadEndItem(f, sb, c);
        out := Section(n);
    }
  }

  method ReadBitsItem(f: BitFile, ghost v: nat, n: nat, invert: bool, ghost sb: int, ghost c: int) returns (r: nat)
    requires f.Valid() && sb >= NONE && ReadingSection(f, sb, c)
    requires Holds(f.File(), c, Emitted(v, n, invert))
    modifies f, f.base
    ensures f.Valid() && f.File() == old(f.File())
    ensures ReadingSection(f, SectionAfter(Bits(v, n, invert), sb), c + n)
    ensures r == v % Pow2(n)
  {
    hide BitNumbers.Bit, BitNumbers.BitsOf, BitIO.Emitted, BitFile.Reading;
    r := f.ReadBits(0, n, invert);
    ReadValue(v, r, n, invert);
  }

  method ReadRawItem(f: BitFile, size: nat, ghost bytes: seq<byte>, ghost sb: int, ghost c: int) returns (r: seq<byte>)
    requires f.Valid() && sb >= NONE && ReadingSection(f, sb, c)
    requires size == |bytes| && Holds(f.File(), c, ItemImage(Raw(bytes), sb))
    modifies f, f.base
    ensures f.Valid() && f.File() == old(f.File())
    ensures ReadingSection(f, SectionAfter(Raw(bytes), sb), c + |ItemImage(Raw(bytes), sb)|)
    ensures r == bytes
  {
    hide BitNumbers.Bit, BitNumbers.BitsOf, Holds;
    ghost var p := f.base.here;
    if size > 0 {
      RawAhead(f, bytes, sb, c);
    }
    r := f.ReadRaw(size);
  }

  /** Past the padding of the open section lie the raw bytes. */
  lemma RawAhead(f: BitFile, bytes: seq<byte>, sb: int, c: int)
    requires f.Valid() && sb >= NONE && ReadingSection(f, sb, c)
    requires bytes != [] && Holds(f.File(), c, Zeroes(Fill(sb)) + BitsOf(bytes))
    ensures c + Fill(sb) == 8 * f.base.here
    ensures f.base.here + |bytes| <= |f.File()| && ReadAt(f.File(), f.base.here, |bytes|) == bytes
  {
    hide BitNumbers.Bit, BitNumbers.BitsOf, Holds, MemFile.ReadAt;
    FillIsPadding(f, sb, c);
    BytesAhead(f.File(), c, Fill(sb), f.base.here, f.base.here + |bytes|, bytes);
  }

  lemma BytesAhead(file: seq<byte>, c: int, pad: nat, p: nat, q: nat, bytes: seq<byte>)
    requires c + pad == 8 * p && p < q == p + |bytes| && Holds(file, c, Zeroes(pad) + BitsOf(bytes))
    ensures q <= |file| && ReadAt(file, p, |bytes|) == bytes
  {
    hide BitNumbers.Bit, BitNumbers.BitsOf, Holds;
    HoldsSplit(file, c, Zeroes(pad), BitsOf(bytes));
    HoldsBytes(file, p, q, bytes);
  }

  lemma FillIsPadding(f: BitFile, sb: int, c: int)
    requires f.Valid() && sb >= NONE && ReadingSection(f, sb, c)
    ensures c + Fill(sb) == 8 * f.base.here
  {
    hide BitNumbers.Bit, BitNumbers.BitsOf, BitFile.Reading;
    if sb != NONE {
      RoundUp(f.readCount, Padding(f.readBit));
    }
  }

  lemma RoundUp(count: int, pad: nat)
    requires pad < 8
    ensures (8 * count - pad + 7) / 8 == count
  {
  }

  method ReadEndItem(f: BitFile, ghost sb: int, ghost c: int) returns (n: int)
    requires f.Valid() && sb >= NONE && ReadingSection(f, sb, c)
    modifies f, f.base
    ensures f.Valid() && f.File() == old(f.File())
    ensures ReadingSection(f, NONE, c + Fill(sb))
    ensures n == SectionSize(sb)
  {
    hide BitNumbers.Bit, BitNumbers.BitsOf;
    n := f.EndReadBits();
  }

  /** Plays a script by reading it back: `items` supplies widths and lengths, not values. */
  method ReadScript(f: BitFile, items: seq<Item>) returns (outs: seq<Out>)
    requires f.Valid() && ReadingSection(f, NONE, 8 * f.base.here)
    requires Holds(f.File(), 8 * f.base.here, Image(items, NONE))
    modifies f, f.base
    ensures f.Valid() && f.File() == old(f.File())
    ensures outs == Expected(items, NONE)
  {
    hide BitNumbers.Bit, BitNumbers.BitsOf, ReadingSection, Holds, ItemImage, Image, Expected, SectionAfter;
    outs := [];
    ghost var sb, c := NONE, 8 * f.base.here;
    ScriptEnds(items, sb);
    for i := 0 to |items|
      invariant f.Valid() && f.File() == old(f.File())
      invariant sb >= NONE && ReadingSection(f, sb, c) && Holds(f.File(), c, Image(items[i..], sb))
      invariant outs + Expected(items[i..], sb) == Expected(items, NONE)
    {
      ghost var sb' := SectionAfter(items[i], sb);
      ScriptStep(items, i, sb);
      HoldsSplit(f.File(), c, ItemImage(items[i], sb), Image(items[i + 1..], sb'));
      var out := ReadItem(f, items[i], sb, c);
      c := c + |ItemImage(items[i], sb)|;
      RegroupOuts(outs, out, Expected([items[i]], sb), Expected(items[i + 1..], sb'));
      outs := outs + [out];
      sb := sb';
    }
    ScriptEnds(items, sb);
  }

  lemma RegroupOuts(outs: seq<Out>, out: Out, head: seq<Out>, rest: seq<Out>)
    requires |head| == 1 && out == head[0]
    ensures outs + (head + rest) == outs + [out] + rest
  {
  }

  /** Writes a script at the current position of a file, seeks back and reads the script. Every
      value comes back modulo 2^n, every block as it was, and every section has the size
      `EndWriteBits` gave it. */
  method WriteThenRead(f: BitFile, items: seq<Item>) returns (reports: seq<Out>, outs: seq<Out>)
    requires f.Valid() && f.writeCount == NONE && f.base.here <= f.base.stop
    modifies f, f.base
    ensures f.Valid()
    ensures outs == Expected(items, NONE) && reports == Reports(outs)
  {
    hide BitNumbers.Bit, BitNumbers.BitsOf, Image, Expected, Reports;
    var start := f.base.here;
    ghost var sb, was := NONE, f.Written();
    assert f.Pending() == [] && |was| == 8 * start;
    reports, sb := WriteScript(f, items);
    f.SeekSet(start);
    Prefixed(BitsOf(f.File()), was, Image(items, NONE));
    assert f.base.here == start;
    outs := ReadScript(f, items);
  }

  lemma Prefixed(all: seq<bool>, was: seq<bool>, image: seq<bool>)
    requires was + image <= all
    ensures |was| + |image| <= |all| && all[|was|..|was| + |image|] == image
  {
    assert (was + image)[|was|..] == image;
    assert all[..|was| + |image|] == was + image;
  }

  /** A value read into zero is the value written, modulo 2^n. */
  lemma ReadValue(v: nat, r: nat, n: nat, invert: bool)
    requires forall i :: n <= i ==> Bit(r, i) == Bit(0, i)
    requires n > 0 ==> Emitted(r, n, invert) == Emitted(v, n, invert)
    ensures r == v % Pow2(n)
  {
    EmittedDetermines(r, v, n, invert);
    forall i | n <= i
      ensures !Bit(r, i)
    {
      BitsOfZero(i);
    }
    NoHighBits(r, n);
  }

  lemma NoHighBits(r: nat, n: nat)
    requires forall i :: n <= i ==> !Bit(r, i)
    ensures r < Pow2(n) && r % Pow2(n) == r
  {
    hide BitNumbers.Bit, BitNumbers.Pow2;
    if r >= Pow2(n) {
      var i := HighBit(r, n);
      assert false;
    }
    ModUnique(r, Pow2(n), 0, r);
  }

  lemma {:induction false} HighBit(r: nat, n: nat) returns (i: nat)
    requires r >= Pow2(n)
    ensures n <= i && Bit(r, i)
    decreases r
  {
    if r == 1 {
      i := 0;
    } else {
      var j := HighBit(r / 2, if n == 0 then 0 else n - 1);
      i := j + 1;
    }
  }
}
