/** The bit layer of a file: bits are written and read most significant first, in sections that
    start on a byte boundary. Single-bit masks are kept as bit numbers. */
module BitIO {
  import opened BitNumbers
  import opened MemFile

  /** Which bit of a value is the k-th to be written. Inverting the byte order of a little-endian
      value makes it simply the highest remaining one; otherwise bytes go in memory order, each
      from its highest used bit. */
  function BitIndex(n: nat, k: nat, invert: bool): (i: nat)
    requires k < n
    ensures i < n
  {
    if invert then n - 1 - k
    else if n - k / 8 * 8 >= 8 then k / 8 * 8 + 7 - k % 8
    else k / 8 * 8 + (n - k / 8 * 8) - 1 - k % 8
  }

  /** The bits written for the low `n` bits of `v`. */
  function Emitted(v: nat, n: nat, invert: bool): (r: seq<bool>)
    ensures |r| == n
  {
    seq(n, k requires 0 <= k < n => Bit(v, BitIndex(n, k, invert)))
  }

  lemma EmittedAt(v: nat, n: nat, invert: bool, k: nat)
    requires k < n
    ensures Emitted(v, n, invert)[k] == Bit(v, BitIndex(n, k, invert))
  {
  }

  lemma BitIndexOnto(n: nat, i: nat, invert: bool) returns (k: nat)
    requires i < n
    ensures k < n && BitIndex(n, k, invert) == i
  {
    if invert {
      k := n - 1 - i;
    } else {
      var j := i / 8 * 8;
      k := if n - j >= 8 then j + 7 - i % 8 else j + (n - j) - 1 - i % 8;
      assert k / 8 == i / 8;
    }
  }

  lemma BitIndexInjective(n: nat, k: nat, l: nat, invert: bool)
    requires k < n && l < n && BitIndex(n, k, invert) == BitIndex(n, l, invert)
    ensures k == l
  {
    if !invert {
      assert BitIndex(n, k, invert) / 8 == k / 8;
      assert BitIndex(n, l, invert) / 8 == l / 8;
    }
  }

  /** The emitted bits determine the value modulo 2^n. */
  lemma EmittedDetermines(v: nat, w: nat, n: nat, invert: bool)
    requires Emitted(v, n, invert) == Emitted(w, n, invert)
    ensures v % Pow2(n) == w % Pow2(n)
  {
    forall i | 0 <= i < n
      ensures Bit(v % Pow2(n), i) == Bit(w % Pow2(n), i)
    {
      BitOfMod(v, n, i);
      BitOfMod(w, n, i);
      var k := BitIndexOnto(n, i, invert);
      assert Emitted(v, n, invert)[k] == Emitted(w, n, invert)[k];
    }
    SameBits(v % Pow2(n), w % Pow2(n), n);
  }

  const NONE: int := -1

  class BitFile {
    const base: DynamicMem
    var writeLast: byte
    var writeBit: nat
    var writeCount: int
    var readLast: byte
    var readBit: nat
    var readCount: int

    ghost predicate Valid()
      reads this, base
    {
      && base.Valid()
      && writeBit < 8 && readBit < 8 && writeCount >= NONE && readCount >= NONE
      && (writeCount == NONE ==> writeBit == 7)
      && (readCount == NONE ==> readBit == 7)
      && (readCount == 0 ==> readBit == 7)
      && (forall i :: 0 <= i <= writeBit ==> !Bit(writeLast, i))
    }

    /** Bits accepted but not yet in the file. */
    ghost function Pending(): (r: seq<bool>)
      requires Valid()
      reads this, base
      ensures |r| == 7 - writeBit
    {
      ByteBits(writeLast)[..7 - writeBit]
    }

    /** Every bit before the write position, pending ones included. */
    ghost function Written(): seq<bool>
      requires Valid()
      reads this, base
    {
      BitsOf(Before(base.Contents(), base.here)) + Pending()
    }

    ghost function File(): (r: seq<byte>)
      requires Valid()
      reads this, base
      ensures |r| == base.stop
    {
      base.Contents()
    }

    constructor (base: DynamicMem)
      requires base.Valid()
      ensures Valid() && this.base == base && writeCount == NONE && readCount == NONE
      ensures Written() == BitsOf(Before(base.Contents(), base.here))
    {
      this.base := base;
      writeLast, writeBit, writeCount := 0, 7, NONE;
      readLast, readBit, readCount := 0, 7, NONE;
      new;
      forall i | 0 <= i <= 7 {
        BitsOfZero(i);
      }
    }

    // ---- Writing --------------------------------------------------------------------------

    predicate IsWriteBitsBegan()
      reads this
    {
      writeCount != NONE
    }

    /** Starts a section; one that is open loses the bits that are not in the file yet. */
    method BeginWriteBits()
      requires Valid()
      modifies this`writeLast, this`writeBit, this`writeCount
      ensures Valid() && writeCount == 0 && writeBit == 7
      ensures Written() == BitsOf(Before(File(), base.here))
      ensures !old(IsWriteBitsBegan()) ==> Written() == old(Written())
    {
      writeLast, writeCount, writeBit := 0, 0, 7;
      forall i | 0 <= i <= 7 {
        BitsOfZero(i);
      }
    }

    /** Ends a section: a byte that is not full goes to the file padded with zeros. Reports the
        bytes of the section. */
    method EndWriteBits() returns (n: int)
      requires Valid()
      modifies this`writeLast, this`writeBit, this`writeCount, base
      ensures Valid() && writeCount == NONE
      ensures Written() == old(Written()) + seq(Padding(old(writeBit)), _ => false)
      ensures base.here == old(base.here) + (if old(writeBit) == 7 then 0 else 1)
      ensures From(File(), base.here) == From(old(File()), base.here)
      ensures n == old(writeCount) + (if old(writeBit) == 7 then 0 else 1)
      ensures old(base.here <= base.stop) ==> base.here <= base.stop
    {
      hide BitNumbers.Bit, BitNumbers.BitsOf;
      n := writeCount;
      if writeBit != 7 {
        ghost var before, pending := Before(File(), base.here), Pending();
        assert ByteBits(writeLast) == pending + seq(Padding(writeBit), _ => false);
        var _ := base.WriteRaw([writeLast]);
        n := n + 1;
        BitsOfConcat(before, [writeLast]);
        OneByte(writeLast);
        assert Before(File(), base.here) == before + [writeLast];
      }
      writeLast, writeBit, writeCount := 0, 7, NONE;
      forall i | 0 <= i <= 7 {
        BitsOfZero(i);
      }
    }

    /** One round of the loops of `WriteBits`. */
    method PutBit(b: bool)
      requires Valid() && IsWriteBitsBegan()
      modifies this`writeLast, this`writeBit, this`writeCount, base
      ensures Valid() && IsWriteBitsBegan()
      ensures Written() == old(Written()) + [b]
      ensures From(File(), base.here) == From(old(File()), base.here)
      ensures 8 * writeCount - writeBit == old(8 * writeCount - writeBit) + 1
      ensures 8 * base.here - writeBit == old(8 * base.here - writeBit) + 1 && base.here >= old(base.here)
      ensures old(base.here <= base.stop) ==> base.here <= base.stop
    {
      hide BitNumbers.Bit, BitNumbers.SetBit, BitNumbers.BitsOf, MemFile.Before, MemFile.From, MemFile.Overwrite;
      ghost var pending, p := Pending(), writeBit;
      if b {
        SetBitBound(writeLast, writeBit, 8);
        BytePow2();
        forall i | 0 <= i < 8 {
          BitOfSet(writeLast, writeBit, i);
        }
        writeLast := SetBit(writeLast, writeBit);
      }
      assert ByteBits(writeLast)[..8 - p] == pending + [b];
      if writeBit == 0 {
        FlushByte();
      } else {
        writeBit := writeBit - 1;
      }
    }

    /** A full byte goes to the file. */
    method FlushByte()
      requires base.Valid() && writeCount >= 0 && readBit < 8 && readCount >= NONE
      requires (readCount == NONE || readCount == 0 ==> readBit == 7)
      modifies this`writeLast, this`writeBit, this`writeCount, base
      ensures Valid() && writeBit == 7 && writeCount == old(writeCount) + 1 && base.here == old(base.here) + 1
      ensures Written() == BitsOf(Before(old(base.Contents()), old(base.here))) + ByteBits(old(writeLast))
      ensures From(File(), base.here) == From(old(base.Contents()), base.here)
      ensures base.here <= base.stop
    {
      ghost var before := Before(base.Contents(), base.here);
      writeBit := 7;
      var _ := base.WriteRaw([writeLast]);
      writeCount := writeCount + 1;
      BitsOfConcat(before, [writeLast]);
      OneByte(writeLast);
      assert Before(base.Contents(), base.here) == before + [writeLast];
      writeLast := 0;
      forall i | 0 <= i <= 7 {
        BitsOfZero(i);
      }
    }

    /** `WriteBits`: the low `n` bits of `v`. */
    method WriteBits(v: nat, n: nat, invert: bool)
      requires Valid()
      modifies this, base
      ensures Valid()
      ensures n == 0 ==> unchanged(this) && unchanged(base)
      ensures n > 0 ==> IsWriteBitsBegan() && readCount == NONE
      ensures Written() == old(Written()) + Emitted(v, n, invert)
      ensures From(File(), base.here) == From(old(File()), base.here)
      ensures n > 0 ==>
        8 * writeCount - writeBit == (if old(writeCount) == NONE then -7 else old(8 * writeCount - writeBit)) + n
      ensures 8 * base.here - writeBit == old(8 * base.here - writeBit) + n
      ensures old(base.here <= base.stop) ==> base.here <= base.stop
    {
      hide BitNumbers.Bit, MemFile.Before, MemFile.From, MemFile.Overwrite, BitFile.Pending, BitNumbers.BitsOf;
      AllBits(Written(), Emitted(v, n, invert));
      if n == 0 {
        return;
      }
      if readCount != NONE {
        var _ := EndReadBits();
      }
      if !IsWriteBitsBegan() {
        BeginWriteBits();
      }
      WriteLoop(v, n, invert);
    }

    /** The loops of `WriteBits`. */
    method WriteLoop(v: nat, n: nat, invert: bool)
      requires Valid() && IsWriteBitsBegan() && readCount == NONE && n > 0
      modifies this`writeLast, this`writeBit, this`writeCount, base
      ensures Valid() && IsWriteBitsBegan()
      ensures Written() == old(Written()) + Emitted(v, n, invert)
      ensures From(File(), base.here) == From(old(File()), base.here)
      ensures 8 * writeCount - writeBit == old(8 * writeCount - writeBit) + n
      ensures 8 * base.here - writeBit == old(8 * base.here - writeBit) + n
      ensures old(base.here <= base.stop) ==> base.here <= base.stop
    {
      hide *;
      ghost var start, h0 := 8 * writeCount - writeBit, 8 * base.here - writeBit;
      ghost var bits, w0, file := Emitted(v, n, invert), Written(), File();
      AllBits(w0, bits);
      var left := n;
      var src, bit := FirstBit(n, invert);
      while true
        invariant Valid() && IsWriteBitsBegan()
        invariant 0 < left <= n && bit < 8
        invariant 8 * src + bit == BitIndex(n, n - left, invert)
        invariant Written() == w0 + bits[..n - left]
        invariant From(File(), base.here) == From(file, base.here)
        invariant 8 * writeCount - writeBit == start + (n - left)
        invariant 8 * base.here - writeBit == h0 + (n - left)
        invariant old(base.here <= base.stop) ==> base.here <= base.stop
        decreases left
      {
        ghost var k, mid, p := n - left, File(), base.here;
        EmittedAt(v, n, invert, k);
        PutBit(Bit(v, 8 * src + bit));
        OneMoreBit(w0, bits, k);
        FromLater(file, mid, p, base.here);
        left := left - 1;
        if left == 0 { break; }
        src, bit := NextBit(n, left, src, bit, invert);
      }
    }

    /** Where the loops of `WriteBits` and `ReadBits` start in the value: byte and bit. */
    method FirstBit(n: nat, invert: bool) returns (ptr: nat, bit: nat)
      requires n > 0
      ensures bit < 8 && 8 * ptr + bit == BitIndex(n, 0, invert)
    {
      if invert {
        ptr := (n + 7) / 8 - 1;
        bit := 7 - (8 - (n - ptr * 8));
      } else {
        ptr := 0;
        bit := if n < 8 then n - 1 else 7;
      }
    }

    /** Where they go next, with `left` bits left. */
    method NextBit(n: nat, left: nat, ptr: nat, bit: nat, invert: bool) returns (ptr': nat, bit': nat)
      requires 0 < left < n && bit < 8 && 8 * ptr + bit == BitIndex(n, n - left - 1, invert)
      ensures bit' < 8 && 8 * ptr' + bit' == BitIndex(n, n - left, invert)
    {
      ghost var k := n - left;
      assert (k - 1) / 8 == if k % 8 == 0 then k / 8 - 1 else k / 8;
      ptr', bit' := ptr, bit;
      if bit == 0 {
        bit' := 7;
        if invert {
          ptr' := ptr - 1;
        } else {
          if left < 8 { bit' := left - 1; }
          ptr' := ptr + 1;
        }
      } else {
        bit' := bit - 1;
      }
    }

    // ---- Reading --------------------------------------------------------------------------

    method BeginReadBits()
      requires Valid()
      modifies this`readLast, this`readBit, this`readCount
      ensures Valid() && readBit == 7 && readCount == 0
    {
      readLast, readBit, readCount := 0, 7, 0;
    }

    /** Ends a section: what is left of its last byte is dropped. Reports the bytes of the section. */
    method EndReadBits() returns (n: int)
      requires Valid()
      modifies this`readLast, this`readBit, this`readCount
      ensures Valid() && readCount == NONE && readBit == 7
      ensures n == old(readCount) && Written() == old(Written())
    {
      hide BitNumbers.Bit, BitNumbers.ByteBits, BitNumbers.BitsOf, MemFile.Before;
      n := readCount;
      readLast, readBit, readCount := 0, 7, NONE;
    }

    /** The byte being taken apart is the one before the file's position. */
    ghost predicate Reading()
      requires Valid()
      reads this, base
    {
      && base.here <= base.stop
      && (readBit < 7 ==> base.here > 0 && readLast == File()[base.here - 1])
    }

    /** The position of the next bit in the file. */
    ghost function BitCursor(): (c: int)
      requires Valid()
      reads this, base
      ensures Reading() ==> 0 <= c <= 8 * base.stop
    {
      8 * base.here - Padding(readBit)
    }

    /** One round of the loops of `ReadBits`. At the end of the file the last byte is used again. */
    method GetBit() returns (b: bool)
      requires Valid() && readCount != NONE
      modifies this`readLast, this`readBit, this`readCount, base`here
      ensures Valid() && readCount != NONE && File() == old(File())
      ensures readCount == old(readCount) + (if old(readBit) == 7 then 1 else 0)
      ensures readBit == if old(readBit) == 0 then 7 else old(readBit) - 1
      ensures old(Reading() && BitCursor() < 8 * base.stop) ==>
                && Reading() && BitCursor() == old(BitCursor()) + 1
                && b == BitsOf(File())[old(BitCursor())]
    {
      hide BitNumbers.Bit, BitNumbers.BitsOf, MemFile.Overwrite;
      ghost var at := if readBit == 7 then base.here else base.here - 1;
      if Reading() && BitCursor() < 8 * base.stop {
        BitOfByte(File(), at, 7 - readBit);
      }
      if readBit == 7 {
        var out := base.ReadRaw(1);
        if |out| == 1 {
          readLast := out[0];
        }
        readCount := readCount + 1;
      }
      b := Bit(readLast, readBit);
      if readBit == 0 {
        readBit := 7;
      } else {
        readBit := readBit - 1;
      }
    }

    /** `ReadBits` into `dst`: its low `n` bits are replaced. */
    method ReadBits(dst: nat, n: nat, invert: bool) returns (v: nat)
      requires Valid()
      modifies this, base
      ensures Valid()
      ensures n == 0 ==> v == dst && unchanged(this) && unchanged(base)
      ensures n > 0 ==> readCount != NONE && writeCount == NONE
      ensures forall i :: n <= i ==> Bit(v, i) == Bit(dst, i)
      ensures old(writeCount) == NONE ==> File() == old(File())
      ensures old(writeCount) == NONE && n > 0 ==>
                ReadSectionBits() == (if old(readCount) == NONE then 0 else old(ReadSectionBits())) + n
      ensures old(writeCount) == NONE && old(Reading() && BitCursor() + n <= 8 * base.stop) ==>
                && Reading() && BitCursor() == old(BitCursor()) + n
                && Emitted(v, n, invert) == BitsOf(File())[old(BitCursor())..old(BitCursor()) + n]
    {
      v := dst;
      if n == 0 {
        return;
      }
      if IsWriteBitsBegan() {
        var _ := EndWriteBits();
      }
      if readCount == NONE {
        BeginReadBits();
      }
      v := ReadLoop(dst, n, invert);
    }

    /** Bits read since the section began. */
    ghost function ReadSectionBits(): int
      requires Valid()
      reads this, base
    {
      8 * readCount - Padding(readBit)
    }

    /** The loops of `ReadBits`. */
    method ReadLoop(dst: nat, n: nat, invert: bool) returns (v: nat)
      requires Valid() && readCount != NONE && n > 0
      modifies this`readLast, this`readBit, this`readCount, base`here
      ensures Valid() && readCount != NONE && File() == old(File())
      ensures forall i :: n <= i ==> Bit(v, i) == Bit(dst, i)
      ensures ReadSectionBits() == old(ReadSectionBits()) + n
      ensures old(Reading() && BitCursor() + n <= 8 * base.stop) ==>
                && Reading() && BitCursor() == old(BitCursor()) + n
                && Emitted(v, n, invert) == BitsOf(File())[old(BitCursor())..old(BitCursor()) + n]
    {
      hide *;
      ghost var c, start, got: seq<bool> := BitCursor(), ReadSectionBits(), [];
      ghost var enough := Reading() && c + n <= 8 * base.stop;
      ghost var want := if enough then BitsOf(File())[c..c + n] else [];
      v := dst;
      StoredNone(dst, n, invert);
      var left := n;
      var ptr, bit := FirstBit(n, invert);
      while true
        invariant Valid() && readCount != NONE && File() == old(File())
        invariant 0 < left <= n && bit < 8 && |got| == n - left
        invariant 8 * ptr + bit == BitIndex(n, n - left, invert)
        invariant ReadSectionBits() == start + (n - left)
        invariant Stored(v, dst, n, invert, got)
        invariant enough ==> Reading() && BitCursor() == c + (n - left) && got <= want
        decreases left
      {
        var b := NextRead();
        assert enough ==> b == want[|got|];
        v := StoreBit(v, 8 * ptr + bit, b, dst, n, invert, got);
        got := got + [b];
        left := left - 1;
        if left == 0 { break; }
        ptr, bit := NextBit(n, left, ptr, bit, invert);
      }
      StoredAll(v, dst, n, invert, got);
    }

    /** `GetBit`, counted in bits of the section. */
    method NextRead() returns (b: bool)
      requires Valid() && readCount != NONE
      modifies this`readLast, this`readBit, this`readCount, base`here
      ensures Valid() && readCount != NONE && File() == old(File())
      ensures ReadSectionBits() == old(ReadSectionBits()) + 1
      ensures old(Reading() && BitCursor() < 8 * base.stop) ==>
                && Reading() && BitCursor() == old(BitCursor()) + 1
                && b == BitsOf(File())[old(BitCursor())]
    {
      b := GetBit();
    }

    /** `*pDst |= mask` or `*pDst &= ~mask`: only that bit changes. */
    method StoreBit(v: nat, i: nat, b: bool, ghost dst: nat, ghost n: nat, ghost invert: bool, ghost got: seq<bool>)
      returns (r: nat)
      requires |got| < n && i == BitIndex(n, |got|, invert) && Stored(v, dst, n, invert, got)
      ensures Stored(r, dst, n, invert, got + [b])
    {
      hide BitNumbers.Bit, BitNumbers.SetBit, BitNumbers.ClearBit;
      r := if b then SetBit(v, i) else ClearBit(v, i);
      forall j: nat
        ensures Bit(r, j) == if i == j then b else Bit(v, j)
      {
        BitOfSet(v, i, j);
        BitOfClear(v, i, j);
      }
      forall l | 0 <= l < |got|
        ensures BitIndex(n, l, invert) != i
      {
        if BitIndex(n, l, invert) == i {
          BitIndexInjective(n, |got|, l, invert);
        }
      }
    }

    // ---- Raw access and seeking -------------------------------------------------------------

    /** `SeekSet` ends both kinds of section; what was written is then in the file. */
    method SeekSet(offset: int)
      requires Valid()
      modifies this, base
      ensures Valid() && readCount == NONE && writeCount == NONE && Reading()
      ensures base.here == Max(0, Min(offset, base.stop)) && BitCursor() == 8 * base.here
      ensures old(base.here <= base.stop) ==> old(Written()) <= BitsOf(File())
    {
      hide BitNumbers.Bit, BitNumbers.BitsOf;
      if readCount != NONE {
        var _ := EndReadBits();
      }
      if IsWriteBitsBegan() {
        var _ := EndWriteBits();
      }
      if base.here <= base.stop {
        AllFlushed();
      }
      base.SeekSet(offset);
    }

    /** With no section open, the bits written are the bytes before the position. */
    lemma AllFlushed()
      requires Valid() && writeCount == NONE && base.here <= base.stop
      ensures Written() <= BitsOf(File())
    {
      hide BitNumbers.Bit, BitNumbers.BitsOf;
      assert Pending() == [];
      assert File() == File()[..base.here] + File()[base.here..];
      BitsOfConcat(File()[..base.here], File()[base.here..]);
    }

    /** `ReadRaw` starts on a byte boundary: it ends a bit section, unless it reads nothing. */
    method ReadRaw(n: nat) returns (out: seq<byte>)
      requires Valid()
      modifies this`readLast, this`readBit, this`readCount, base`here
      ensures Valid() && File() == old(File())
      ensures n == 0 ==> out == [] && unchanged(this) && unchanged(base)
      ensures n > 0 ==> readCount == NONE && readBit == 7
      ensures n > 0 ==> out == ReadAt(File(), old(base.here), n)
      ensures n > 0 ==> base.here == if old(base.here) >= base.stop then base.stop +
          1 else Min(old(base.here) + n, base.stop)
    {
      if n == 0 { return []; }
      if readCount != NONE {
        var _ := EndReadBits();
      }
      out := base.ReadRaw(n);
    }

    /** `WriteRaw` starts on a byte boundary: it flushes a bit section, unless it writes nothing. */
    method WriteRaw(bytes: seq<byte>) returns (n: nat)
      requires Valid()
      modifies this`writeLast, this`writeBit, this`writeCount, base
      ensures Valid() && n == |bytes|
      ensures bytes == [] ==> unchanged(this) && unchanged(base)
      ensures bytes != [] ==> writeCount == NONE
      ensures bytes != [] ==>
                Written() == old(Written()) + seq(Padding(old(writeBit)), _ => false) + BitsOf(bytes)
      ensures From(File(), base.here) == From(old(File()), base.here)
      ensures bytes != [] ==>
                base.here == old(base.here) + (if old(writeBit) == 7 then 0 else 1) + |bytes|
      ensures old(base.here <= base.stop) ==> base.here <= base.stop
    {
      hide BitNumbers.Bit, BitNumbers.BitsOf, MemFile.Before, MemFile.From, MemFile.Overwrite, BitFile.Pending;
      if bytes == [] { return 0; }
      if IsWriteBitsBegan() {
        var _ := EndWriteBits();
      } else {
        NoPending();
      }
      ghost var mid, p := File(), base.here;
      n := WriteWhole(bytes);
      FromLater(old(File()), mid, p, base.here);
    }

    lemma NoPending()
      requires Valid() && writeCount == NONE
      ensures Written() == Written() + seq(Padding(writeBit), _ => false)
    {
    }

    /** Whole bytes on a byte boundary. */
    method WriteWhole(bytes: seq<byte>) returns (n: nat)
      requires Valid() && writeCount == NONE
      modifies base
      ensures Valid() && n == |bytes| && base.here == old(base.here) + |bytes|
      ensures Written() == old(Written()) + BitsOf(bytes)
      ensures From(File(), base.here) == From(old(File()), base.here)
      ensures old(base.here <= base.stop) ==> base.here <= base.stop
    {
      hide BitNumbers.Bit, BitNumbers.BitsOf;
      ghost var before := Before(File(), base.here);
      assert Pending() == [];
      n := base.WriteRaw(bytes);
      BitsOfConcat(before, bytes);
      assert Before(File(), base.here) == before + bytes;
    }
  }

  /** The first `|got|` of the `n` bits are in place in `v`; bits above those of `n` are still `dst`'s. */
  ghost predicate Stored(v: nat, dst: nat, n: nat, invert: bool, got: seq<bool>) {
    && |got| <= n
    && (forall i :: n <= i ==> Bit(v, i) == Bit(dst, i))
    && (forall k :: 0 <= k < |got| ==> Bit(v, BitIndex(n, k, invert)) == got[k])
  }

  lemma StoredNone(dst: nat, n: nat, invert: bool)
    ensures Stored(dst, dst, n, invert, [])
  {
  }

  lemma StoredAll(v: nat, dst: nat, n: nat, invert: bool, got: seq<bool>)
    requires |got| == n && Stored(v, dst, n, invert, got)
    ensures Emitted(v, n, invert) == got
    ensures forall i :: n <= i ==> Bit(v, i) == Bit(dst, i)
  {
    hide BitNumbers.Bit;
  }

  /** Zero bits that fill the byte whose next free bit is `bit`. */
  function Padding(bit: nat): nat
    requires bit < 8
  {
    if bit == 7 then 0 else bit + 1
  }

  lemma OneMoreBit(before: seq<bool>, bits: seq<bool>, k: nat)
    requires k < |bits|
    ensures before + bits[..k] + [bits[k]] == before + bits[..k + 1]
  {
  }

  lemma AllBits(before: seq<bool>, bits: seq<bool>)
    ensures before + bits[..|bits|] == before + bits && before + bits[..0] == before
  {
    assert bits[..|bits|] == bits;
  }

  lemma OneByte(b: byte)
    ensures BitsOf([b]) == ByteBits(b)
  {
    assert [b][..0] == [];
  }
}
