/** Prefix-coded integers: one bit per step from the widest leaf down says whether a narrower leaf
    is enough, then the leaf holds the value. */
module PackedInts {
  import opened BitNumbers
  import opened BitIO
  import opened BitScript

  predicate IsWidth(w: nat) {
    w in {64, 48, 32, 24, 16, 8}
  }

  /** The leaf below width `w`; below 8 come the 4-bit values. */
  function Narrower(w: nat): (r: nat)
    requires IsWidth(w)
    ensures r < w && (w > 8 ==> IsWidth(r))
  {
    match w
    case 64 => 48
    case 48 => 32
    case 32 => 24
    case 24 => 16
    case 16 => 8
    case _ => 4
  }

  /** The bits of an unsigned value entered at width `w`. */
  function PackedU(v: nat, w: nat): seq<bool>
    requires IsWidth(w)
  {
    var n := Narrower(w);
    if v >= Pow2(n) then [false] + Emitted(v, w, true)
    else if w == 8 then [true] + Emitted(v, 4, true)
    else [true] + PackedU(v, n)
  }

  /** `WriteBitsPackedU64`, `U48`, `U32`, `U24`, `U16` and `U8`, one method for the family. */
  method WritePackedU(f: BitFile, v: nat, w: nat)
    requires f.Valid() && IsWidth(w) && v < Pow2(w)
    modifies f, f.base
    ensures f.Valid() && f.writeCount != NONE
    ensures f.Written() == old(f.Written()) + PackedU(v, w)
    ensures old(f.base.here <= f.base.stop) ==> f.base.here <= f.base.stop
    decreases w
  {
    hide BitNumbers.Bit, BitNumbers.BitsOf, BitFile.Written;
    ghost var was := f.Written();
    if v < Pow2(Narrower(w)) {
      f.WriteBits(1, 1, true);
      OneBit();
      if w == 8 {
        f.WriteBits(v, 4, true);
        Regroup(was, [true], Emitted(v, 4, true));
      } else {
        WritePackedU(f, v, Narrower(w));
        Regroup(was, [true], PackedU(v, Narrower(w)));
      }
    } else {
      f.WriteBits(0, 1, true);
      OneBit();
      f.WriteBits(v, w, true);
      Regroup(was, [false], Emitted(v, w, true));
    }
  }

  lemma OneBit()
    ensures Emitted(1, 1, true) == [true] && Emitted(0, 1, true) == [false]
  {
  }

  /** `ReadBitsPackedU64` and its family, over a file that holds a packed `v` at the cursor. */
  method ReadPackedU(f: BitFile, w: nat, ghost v: nat, ghost sb: int, ghost c: int) returns (r: nat)
    requires f.Valid() && IsWidth(w) && v < Pow2(w)
    requires sb >= NONE && ReadingSection(f, sb, c) && Holds(f.File(), c, PackedU(v, w))
    modifies f, f.base
    ensures f.Valid() && f.File() == old(f.File())
    ensures ReadingSection(f, Open(sb) + |PackedU(v, w)|, c + |PackedU(v, w)|)
    ensures r == v
    decreases w
  {
    hide BitNumbers.Bit, BitNumbers.BitsOf, BitIO.Emitted, ReadingSection, Holds, BitNumbers.Pow2;
    ghost var narrow := v < Pow2(Narrower(w));
    ghost var leaf := if !narrow then Emitted(v, w, true) else if w == 8 then Emitted(v, 4,
        true) else PackedU(v, Narrower(w));
    HoldsSplit(f.File(), c, [narrow], leaf);
    var b := ReadBit(f, narrow, sb, c);
    if b {
      if w == 8 {
        r := ReadBitsItem(f, v, 4, true, Open(sb) + 1, c + 1);
        ModUnique(v, Pow2(4), 0, v);
      } else {
        r := ReadPackedU(f, Narrower(w), v, Open(sb) + 1, c + 1);
      }
    } else {
      r := ReadBitsItem(f, v, w, true, Open(sb) + 1, c + 1);
      ModUnique(v, Pow2(w), 0, v);
    }
  }

  /** `ReadBit`. */
  method ReadBit(f: BitFile, ghost bit: bool, ghost sb: int, ghost c: int) returns (b: bool)
    requires f.Valid() && sb >= NONE && ReadingSection(f, sb, c) && Holds(f.File(), c, [bit])
    modifies f, f.base
    ensures f.Valid() && f.File() == old(f.File())
    ensures ReadingSection(f, Open(sb) + 1, c + 1)
    ensures b == bit
  {
    hide BitNumbers.BitsOf, ReadingSection, Holds;
    OneBit();
    var r := ReadBitsItem(f, if bit then 1 else 0, 1, true, sb, c);
    b := r != 0;
  }

  /** The section a bit goes to: the open one, or a new one. */
  function Open(sb: int): int {
    if sb == NONE then 0 else sb
  }

  // ---- The code ----------------------------------------------------------------------------

  /** A 64-bit value takes one of seven sizes, at most 65 bits. */
  lemma PackedSize(v: nat)
    requires v < Pow2(64)
    ensures |PackedU(v, 64)| in {10, 14, 21, 28, 35, 50, 65}
  {
    hide BitNumbers.Pow2;
    assert |PackedU(v, 8)| in {5, 9};
    assert |PackedU(v, 16)| in {6, 10, 17};
    assert |PackedU(v, 24)| in {7, 11, 18, 25};
    assert |PackedU(v, 32)| in {8, 12, 19, 26, 33};
    assert |PackedU(v, 48)| in {9, 13, 20, 27, 34, 49};
  }

  /** No code word begins another: the reader never has to look ahead. */
  lemma {:induction false} PackedPrefixFree(v: nat, v': nat, w: nat)
    requires IsWidth(w) && v < Pow2(w) && v' < Pow2(w)
    requires PackedU(v, w) <= PackedU(v', w)
    ensures v == v'
    decreases w
  {
    hide BitNumbers.Pow2;
    var n := Narrower(w);
    var x, y := PackedU(v, w), PackedU(v', w);
    assert x[0] == y[0];
    if v < Pow2(n) && w > 8 {
      assert x[1..] == PackedU(v, n) && y[1..] == PackedU(v', n);
      PackedPrefixFree(v, v', n);
    } else {
      var m := if v < Pow2(n) then 4 else w;
      assert x[1..] == Emitted(v, m, true) && y[1..] == Emitted(v', m, true);
      EmittedDetermines(v, v', m, true);
      ModUnique(v, Pow2(m), 0, v);
      ModUnique(v', Pow2(m), 0, v');
    }
  }

  // ---- Lists -------------------------------------------------------------------------------

  function PackedAll(vs: seq<nat>): seq<bool> {
    if vs == [] then [] else PackedU(vs[0], 64) + PackedAll(vs[1..])
  }

  /** Any list of 64-bit values written packed reads back exactly. */
  method PackThenUnpack(f: BitFile, vs: seq<nat>) returns (outs: seq<nat>)
    requires f.Valid() && f.writeCount == NONE && f.base.here <= f.base.stop
    requires forall v :: v in vs ==> v < Pow2(64)
    modifies f, f.base
    ensures f.Valid() && outs == vs
  {
    hide BitNumbers.Bit, BitNumbers.BitsOf, PackedU, BitNumbers.Pow2;
    var start := f.base.here;
    ghost var was := f.Written();
    assert f.Pending() == [] && |was| == 8 * start;
    PackAll(f, vs);
    f.SeekSet(start);
    Prefixed(BitsOf(f.File()), was, PackedAll(vs));
    outs := UnpackAll(f, |vs|, vs);
  }

  method PackAll(f: BitFile, vs: seq<nat>)
    requires f.Valid() && forall v :: v in vs ==> v < Pow2(64)
    modifies f, f.base
    ensures f.Valid() && f.Written() == old(f.Written()) + PackedAll(vs)
    ensures old(f.base.here <= f.base.stop) ==> f.base.here <= f.base.stop
  {
    hide BitNumbers.Bit, BitNumbers.BitsOf, BitFile.Written, PackedU, BitNumbers.Pow2;
    ghost var was := f.Written();
    for i := 0 to |vs|
      invariant f.Valid() && f.Written() + PackedAll(vs[i..]) == was + PackedAll(vs)
      invariant old(f.base.here <= f.base.stop) ==> f.base.here <= f.base.stop
    {
      assert vs[i..][1..] == vs[i + 1..];
      Regroup(f.Written(), PackedU(vs[i], 64), PackedAll(vs[i + 1..]));
      assert vs[i] in vs;
      WritePackedU(f, vs[i], 64);
    }
  }

  method UnpackAll(f: BitFile, n: nat, ghost vs: seq<nat>) returns (outs: seq<nat>)
    requires f.Valid() && n == |vs| && forall v :: v in vs ==> v < Pow2(64)
    requires ReadingSection(f, NONE, 8 * f.base.here) && Holds(f.File(), 8 * f.base.here, PackedAll(vs))
    modifies f, f.base
    ensures f.Valid() && outs == vs
  {
    hide BitNumbers.Bit, BitNumbers.BitsOf, PackedU, BitNumbers.Pow2, ReadingSection, Holds;
    outs := [];
    ghost var sb, c := NONE, 8 * f.base.here;
    assert vs[0..] == vs;
    for i := 0 to n
      invariant f.Valid() && sb >= NONE && ReadingSection(f, sb, c)
      invariant Holds(f.File(), c, PackedAll(vs[i..])) && outs == vs[..i]
    {
      assert vs[i..][1..] == vs[i + 1..];
      HoldsSplit(f.File(), c, PackedU(vs[i], 64), PackedAll(vs[i + 1..]));
      assert vs[i] in vs;
      var r := ReadPackedU(f, 64, vs[i], sb, c);
      sb, c := Open(sb) + |PackedU(vs[i], 64)|, c + |PackedU(vs[i], 64)|;
      outs := outs + [r];
    }
  }

  // ---- Signed values ------------------------------------------------------------------------

  function Abs(n: int): nat { if n < 0 then -n else n }

  /** The low `w` bits of the two's complement representation. */
  function Complement(n: int, w: nat): nat {
    n % Pow2(w)
  }

  /** The bits of a signed value entered at width `w`. */
  function PackedI(n: int, w: nat): seq<bool>
    requires IsWidth(w)
  {
    if w == 8 then Emitted(Complement(n, 8), 8, false)
    else if Abs(n) < Pow2(Narrower(w) - 1) then [true] + PackedI(n, Narrower(w))
    else [false] + Emitted(Complement(n, w), w, true)
  }

  /** What a leaf of `w` bits is read as: the 24- and 48-bit leaves are read into wider integers
      without extending the sign. */
  function LeafValue(u: nat, w: nat): int
    requires w > 0
  {
    if w == 24 || w == 48 || u < Pow2(w - 1) then u else u - Pow2(w)
  }

  /** The width of the leaf `n` is written on, entering at width `w`. */
  function LeafWidth(n: int, w: nat): (r: nat)
    requires IsWidth(w)
    ensures IsWidth(r)
  {
    if w == 8 then 8 else if Abs(n) < Pow2(Narrower(w) - 1) then LeafWidth(n, Narrower(w)) else w
  }

  /** `WriteBitsPackedI64` and its family. */
  method WritePackedI(f: BitFile, n: int, w: nat)
    requires f.Valid() && IsWidth(w)
    modifies f, f.base
    ensures f.Valid() && f.Written() == old(f.Written()) + PackedI(n, w)
    ensures old(f.base.here <= f.base.stop) ==> f.base.here <= f.base.stop
    decreases w
  {
    hide BitNumbers.Bit, BitNumbers.BitsOf, BitFile.Written, Complement, BitIO.Emitted;
    ghost var was := f.Written();
    if w == 8 {
      f.WriteBits(Complement(n, 8), 8, false);
    } else if Abs(n) < Pow2(Narrower(w) - 1) {
      f.WriteBits(1, 1, true);
      OneBit();
      WritePackedI(f, n, Narrower(w));
      Regroup(was, [true], PackedI(n, Narrower(w)));
    } else {
      f.WriteBits(0, 1, true);
      OneBit();
      f.WriteBits(Complement(n, w), w, true);
      Regroup(was, [false], Emitted(Complement(n, w), w, true));
    }
  }

  /** `ReadBitsPackedI64` and its family, over a file that holds a packed `n` at the cursor. */
  method ReadPackedI(f: BitFile, w: nat, ghost n: int, ghost sb: int, ghost c: int) returns (r: int)
    requires f.Valid() && IsWidth(w)
    requires sb >= NONE && ReadingSection(f, sb, c) && Holds(f.File(), c, PackedI(n, w))
    modifies f, f.base
    ensures f.Valid() && f.File() == old(f.File())
    ensures ReadingSection(f, Open(sb) + |PackedI(n, w)|, c + |PackedI(n, w)|)
    ensures var l := LeafWidth(n, w); r == LeafValue(Complement(n, l), l)
    decreases w
  {
    hide BitNumbers.Bit, BitNumbers.BitsOf, BitIO.Emitted, ReadingSection, Holds, BitNumbers.Pow2;
    if w == 8 {
      var u := ReadBitsItem(f, Complement(n, 8), 8, false, sb, c);
      ModUnique(Complement(n, 8), Pow2(8), 0, Complement(n, 8));
      r := LeafValue(u, 8);
      return;
    }
    ghost var narrow := Abs(n) < Pow2(Narrower(w) - 1);
    ghost var leaf := if narrow then PackedI(n, Narrower(w)) else Emitted(Complement(n, w), w, true);
    HoldsSplit(f.File(), c, [narrow], leaf);
    var b := ReadBit(f, narrow, sb, c);
    if b {
      r := ReadPackedI(f, Narrower(w), n, Open(sb) + 1, c + 1);
    } else {
      var u := ReadBitsItem(f, Complement(n, w), w, true, Open(sb) + 1, c + 1);
      ModUnique(Complement(n, w), Pow2(w), 0, Complement(n, w));
      r := LeafValue(u, w);
    }
  }

  /** A signed 64-bit value comes back as itself, except that a negative one on the 24- or 48-bit
      leaf comes back 2^24 or 2^48 too large. The extreme value, whose absolute value does not
      fit, is not considered. */
  lemma SignedReadBack(n: int)
    requires Abs(n) < Pow2(63)
    ensures var l := LeafWidth(n, 64);
            var r := LeafValue(Complement(n, l), l);
            && (r == n <==> !(n < 0 && l in {24, 48}))
            && (n < 0 && l in {24, 48} ==> r == n + Pow2(l))
  {
    hide BitNumbers.Pow2, LeafWidth;
    var l := LeafWidth(n, 64);
    LeafFits(n, 64);
    HalfPow2(l);
    if n < 0 {
      ModOfNegative(n, Pow2(l));
    } else {
      ModUnique(n, Pow2(l), 0, n);
    }
  }

  /** What a signed value comes back as. */
  function Restored(n: int): int {
    var l := LeafWidth(n, 64);
    if n < 0 && l in {24, 48} then n + Pow2(l) else n
  }

  function PackedSigned(ns: seq<int>): seq<bool> {
    if ns == [] then [] else PackedI(ns[0], 64) + PackedSigned(ns[1..])
  }

  /** Any list of signed values written packed reads back as itself, but for the negative ones on the
      24- and 48-bit leaves. */
  method PackThenUnpackSigned(f: BitFile, ns: seq<int>) returns (outs: seq<int>)
    requires f.Valid() && f.writeCount == NONE && f.base.here <= f.base.stop
    requires forall n :: n in ns ==> Abs(n) < Pow2(63)
    modifies f, f.base
    ensures f.Valid() && |outs| == |ns| && forall i :: 0 <= i < |ns| ==> outs[i] == Restored(ns[i])
  {
    hide BitNumbers.Bit, BitNumbers.BitsOf, PackedI, BitNumbers.Pow2, Restored;
    var start := f.base.here;
    ghost var was := f.Written();
    assert f.Pending() == [] && |was| == 8 * start;
    PackAllSigned(f, ns);
    f.SeekSet(start);
    Prefixed(BitsOf(f.File()), was, PackedSigned(ns));
    outs := UnpackAllSigned(f, |ns|, ns);
  }

  method PackAllSigned(f: BitFile, ns: seq<int>)
    requires f.Valid()
    modifies f, f.base
    ensures f.Valid() && f.Written() == old(f.Written()) + PackedSigned(ns)
    ensures old(f.base.here <= f.base.stop) ==> f.base.here <= f.base.stop
  {
    hide BitNumbers.Bit, BitNumbers.BitsOf, BitFile.Written, PackedI;
    ghost var was := f.Written();
    for i := 0 to |ns|
      invariant f.Valid() && f.Written() + PackedSigned(ns[i..]) == was + PackedSigned(ns)
      invariant old(f.base.here <= f.base.stop) ==> f.base.here <= f.base.stop
    {
      assert ns[i..][1..] == ns[i + 1..];
      Regroup(f.Written(), PackedI(ns[i], 64), PackedSigned(ns[i + 1..]));
      WritePackedI(f, ns[i], 64);
    }
  }

  method UnpackAllSigned(f: BitFile, n: nat, ghost ns: seq<int>) returns (outs: seq<int>)
    requires f.Valid() && n == |ns| && forall m :: m in ns ==> Abs(m) < Pow2(63)
    requires ReadingSection(f, NONE, 8 * f.base.here) && Holds(f.File(), 8 * f.base.here, PackedSigned(ns))
    modifies f, f.base
    ensures f.Valid() && |outs| == n && forall i :: 0 <= i < n ==> outs[i] == Restored(ns[i])
  {
    hide BitNumbers.Bit, BitNumbers.BitsOf, PackedI, BitNumbers.Pow2, ReadingSection, Holds, Restored;
    outs := [];
    ghost var sb, c := NONE, 8 * f.base.here;
    assert ns[0..] == ns;
    for i := 0 to n
      invariant f.Valid() && sb >= NONE && ReadingSection(f, sb, c)
      invariant Holds(f.File(), c, PackedSigned(ns[i..]))
      invariant |outs| == i && forall j :: 0 <= j < i ==> outs[j] == Restored(ns[j])
    {
      assert ns[i..][1..] == ns[i + 1..];
      HoldsSplit(f.File(), c, PackedI(ns[i], 64), PackedSigned(ns[i + 1..]));
      assert ns[i] in ns;
      var r := ReadPackedI(f, 64, ns[i], sb, c);
      ReadsRestored(ns[i]);
      sb, c := Open(sb) + |PackedI(ns[i], 64)|, c + |PackedI(ns[i], 64)|;
      outs := outs + [r];
    }
  }

  lemma ReadsRestored(n: int)
    requires Abs(n) < Pow2(63)
    ensures var l := LeafWidth(n, 64); LeafValue(Complement(n, l), l) == Restored(n)
  {
    hide BitNumbers.Pow2, LeafWidth;
    SignedReadBack(n);
  }

  /** Which values these are. */
  lemma WideLeaves(n: int)
    requires Abs(n) < Pow2(63)
    ensures LeafWidth(n, 64) in {24, 48} <==> Pow2(15) <= Abs(n) < Pow2(23) || Pow2(31) <= Abs(n) < Pow2(47)
  {
    hide BitNumbers.Pow2;
    Pow2Grows(7, 15);
    Pow2Grows(15, 23);
    Pow2Grows(23, 31);
    Pow2Grows(31, 47);
    assert LeafWidth(n, 16) in {8, 16};
    assert LeafWidth(n, 24) == if Abs(n) < Pow2(15) then LeafWidth(n, 16) else 24;
    assert LeafWidth(n, 32) == if Abs(n) < Pow2(23) then LeafWidth(n, 24) else 32;
    assert LeafWidth(n, 48) == if Abs(n) < Pow2(31) then LeafWidth(n, 32) else 48;
  }

  lemma {:induction false} LeafFits(n: int, w: nat)
    requires IsWidth(w) && Abs(n) < Pow2(w - 1)
    ensures Abs(n) < Pow2(LeafWidth(n, w) - 1)
    decreases w
  {
    if w > 8 && Abs(n) < Pow2(Narrower(w) - 1) {
      LeafFits(n, Narrower(w));
    }
  }

  lemma HalfPow2(w: nat)
    requires w > 0
    ensures Pow2(w) == 2 * Pow2(w - 1)
  {
  }

  lemma ModOfNegative(n: int, m: int)
    requires -m <= n < 0
    ensures n % m == n + m
  {
  }

  /** A negative value that does not survive: -40000 takes the 24-bit leaf. */
  lemma SignedLossExample()
    ensures LeafWidth(-40000, 64) == 24 && LeafValue(Complement(-40000, 24), 24) == 16737216
  {
    assert Pow2(7) == 128 && Pow2(15) == 32768;
    Pow2Grows(15, 23);
    Pow2Grows(23, 31);
    Pow2Grows(31, 47);
    assert Pow2(23) == 256 * Pow2(15);
    assert Pow2(24) == 16777216;
  }
}
