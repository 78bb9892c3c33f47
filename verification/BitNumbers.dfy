/** Natural numbers as bits. */
module BitNumbers {

  type byte = x: nat | x < 256

  /** `v & (1 << i)`. */
  predicate Bit(v: nat, i: nat) {
    if i == 0 then v % 2 == 1 else Bit(v / 2, i - 1)
  }

  /** `v | (1 << i)`. */
  function SetBit(v: nat, i: nat): nat {
    if i == 0 then v / 2 * 2 + 1 else 2 * SetBit(v / 2, i - 1) + v % 2
  }

  /** `v & ~(1 << i)`. */
  function ClearBit(v: nat, i: nat): nat {
    if i == 0 then v / 2 * 2 else 2 * ClearBit(v / 2, i - 1) + v % 2
  }

  function Pow2(n: nat): (p: nat)
    ensures p > 0
  {
    if n == 0 then 1 else 2 * Pow2(n - 1)
  }

  lemma {:induction false} Pow2Grows(m: nat, n: nat)
    requires m <= n
    ensures Pow2(m) <= Pow2(n)
    decreases n
  {
    if m < n { Pow2Grows(m, n - 1); }
  }

  lemma {:induction false} BitOfSet(v: nat, i: nat, j: nat)
    ensures Bit(SetBit(v, i), j) == (i == j || Bit(v, j))
  {
    if i > 0 && j > 0 {
      BitOfSet(v / 2, i - 1, j - 1);
    }
  }

  lemma {:induction false} BitOfClear(v: nat, i: nat, j: nat)
    ensures Bit(ClearBit(v, i), j) == (i != j && Bit(v, j))
  {
    if i > 0 && j > 0 {
      BitOfClear(v / 2, i - 1, j - 1);
    }
  }

  lemma {:induction false} SetBitBound(v: nat, i: nat, n: nat)
    requires i < n && v < Pow2(n)
    ensures SetBit(v, i) < Pow2(n) && ClearBit(v, i) < Pow2(n)
  {
    var p := Pow2(n - 1);
    assert Pow2(n) == 2 * p && v / 2 < p;
    if i > 0 {
      SetBitBound(v / 2, i - 1, n - 1);
    }
  }

  lemma {:induction false} BitsOfZero(i: nat)
    ensures !Bit(0, i)
  {
    if i > 0 { BitsOfZero(i - 1); }
  }

  lemma {:induction false} HighBits(v: nat, n: nat, i: nat)
    requires v < Pow2(n) && n <= i
    ensures !Bit(v, i)
  {
    if n == 0 { BitsOfZero(i); } else { HighBits(v / 2, n - 1, i - 1); }
  }

  /** Numbers below 2^n with the same bits below n are equal. */
  lemma {:induction false} SameBits(v: nat, w: nat, n: nat)
    requires v < Pow2(n) && w < Pow2(n)
    requires forall i :: 0 <= i < n ==> Bit(v, i) == Bit(w, i)
    ensures v == w
  {
    if n > 0 {
      assert Bit(v, 0) == Bit(w, 0);
      forall i | 0 <= i < n - 1
        ensures Bit(v / 2, i) == Bit(w / 2, i)
      {
        assert Bit(v, i + 1) == Bit(w, i + 1);
      }
      SameBits(v / 2, w / 2, n - 1);
    }
  }

  /** The remainder modulo 2^n keeps the low n bits. */
  lemma {:induction false} BitOfMod(v: nat, n: nat, i: nat)
    ensures Bit(v % Pow2(n), i) == (i < n && Bit(v, i))
  {
    if n == 0 {
      BitsOfZero(i);
    } else {
      ModHalves(v, Pow2(n - 1));
      if i > 0 {
        BitOfMod(v / 2, n - 1, i - 1);
      }
    }
  }

  lemma ModHalves(v: nat, p: nat)
    requires p > 0
    ensures v % (2 * p) == 2 * (v / 2 % p) + v % 2
    ensures v % (2 * p) / 2 == v / 2 % p && v % (2 * p) % 2 == v % 2
  {
    var q, r, b := v / 2 / p, v / 2 % p, v % 2;
    assert v / 2 == q * p + r;
    assert q * (2 * p) == 2 * (q * p);
    ModUnique(v, 2 * p, q, 2 * r + b);
  }

  lemma ModUnique(v: nat, m: nat, q: nat, r: nat)
    requires m > 0 && r < m && v == q * m + r
    ensures v % m == r
  {
    var q', r' := v / m, v % m;
    assert v == q' * m + r';
    if q' > q {
      Multiples(q, q', m);
    } else if q' < q {
      Multiples(q', q, m);
    }
  }

  lemma Multiples(a: nat, b: nat, m: nat)
    requires a < b
    ensures a * m + m <= b * m
    decreases b - a
  {
    assert a * m + m == (a + 1) * m;
    if a + 1 < b {
      Multiples(a + 1, b, m);
    }
  }

  // ---- Bytes as bits, most significant first ----------------------------------------------

  function ByteBits(b: byte): (r: seq<bool>)
    ensures |r| == 8
  {
    seq(8, q requires 0 <= q < 8 => Bit(b, 7 - q))
  }

  function BitsOf(bytes: seq<byte>): (r: seq<bool>)
    ensures |r| == 8 * |bytes|
  {
    if bytes == [] then [] else BitsOf(bytes[..|bytes| - 1]) + ByteBits(bytes[|bytes| - 1])
  }

  lemma {:induction false} BitsOfConcat(xs: seq<byte>, ys: seq<byte>)
    ensures BitsOf(xs + ys) == BitsOf(xs) + BitsOf(ys)
    decreases |ys|
  {
    if ys == [] {
      assert xs + ys == xs;
    } else {
      var n := |ys| - 1;
      assert (xs + ys)[..|xs| + n] == xs + ys[..n];
      BitsOfConcat(xs, ys[..n]);
    }
  }

  /** Byte by byte: bits 8i to 8i+7 are byte i. */
  lemma {:induction false} BitsOfAt(bytes: seq<byte>, i: nat)
    requires i < |bytes|
    ensures BitsOf(bytes)[8 * i..8 * i + 8] == ByteBits(bytes[i])
    decreases |bytes|
  {
    hide ByteBits;
    var n := |bytes| - 1;
    var init, last := BitsOf(bytes[..n]), ByteBits(bytes[n]);
    assert BitsOf(bytes) == init + last;
    if i < n {
      BitsOfAt(bytes[..n], i);
      assert (init + last)[8 * i..8 * i + 8] == init[8 * i..8 * i + 8];
    } else {
      assert (init + last)[8 * n..] == last;
    }
  }

  lemma BitOfByte(bytes: seq<byte>, i: nat, q: nat)
    requires i < |bytes| && q < 8
    ensures BitsOf(bytes)[8 * i + q] == Bit(bytes[i], 7 - q)
  {
    hide Bit, BitsOf;
    BitsOfAt(bytes, i);
    assert BitsOf(bytes)[8 * i + q] == BitsOf(bytes)[8 * i..8 * i + 8][q];
  }

  lemma BytePow2()
    ensures Pow2(8) == 256
  {
    assert Pow2(4) == 16;
  }

  lemma ByteBitsInjective(a: byte, b: byte)
    requires ByteBits(a) == ByteBits(b)
    ensures a == b
  {
    BytePow2();
    forall i | 0 <= i < 8
      ensures Bit(a, i) == Bit(b, i)
    {
      assert ByteBits(a)[7 - i] == ByteBits(b)[7 - i];
    }
    SameBits(a, b, 8);
  }

  lemma {:induction false} BitsOfInjective(xs: seq<byte>, ys: seq<byte>)
    requires BitsOf(xs) == BitsOf(ys)
    ensures xs == ys
    decreases |xs|
  {
    if xs != [] {
      var n := |xs| - 1;
      assert BitsOf(xs)[..8 * n] == BitsOf(xs[..n]) && BitsOf(ys)[..8 * n] == BitsOf(ys[..n]);
      assert BitsOf(xs)[8 * n..] == ByteBits(xs[n]) && BitsOf(ys)[8 * n..] == ByteBits(ys[n]);
      BitsOfInjective(xs[..n], ys[..n]);
      ByteBitsInjective(xs[n], ys[n]);
    }
  }
}
