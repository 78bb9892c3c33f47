/** The base-64 form in which bcrypt writes salts and hashes: `BF_encode` and `BF_decode`. */
module Radix64 {
  import opened Wrappers
  import opened BitNumbers

  type digit = d: nat | d < 64

  /** `BF_itoa64`, by its ranges. */
  function Itoa(d: digit): char {
    if d < 2 then ('.' as int + d) as char
    else if d < 28 then ('A' as int + (d - 2)) as char
    else if d < 54 then ('a' as int + (d - 28)) as char
    else ('0' as int + (d - 54)) as char
  }

  /** `BF_atoi64` with its range check: the digit a character stands for, if any. */
  function Atoi(c: char): (d: Option<digit>)
    ensures d.Some? ==> Itoa(d.value) == c
  {
    if '.' <= c <= '/' then Some(c as int - '.' as int)
    else if '0' <= c <= '9' then Some(54 + (c as int - '0' as int))
    else if 'A' <= c <= 'Z' then Some(2 + (c as int - 'A' as int))
    else if 'a' <= c <= 'z' then Some(28 + (c as int - 'a' as int))
    else None
  }

  lemma AtoiItoa(d: digit)
    ensures Atoi(Itoa(d)) == Some(d)
  {
  }

  // ---- The reference: groups of three bytes and four digits --------------------------------------

  /** The number of digits for `n` bytes. */
  function Length(n: nat): nat {
    (8 * n + 5) / 6
  }

  /** The 24 bits of three bytes as four digits, and back. */
  function D1(b1: byte): digit { b1 / 4 }
  function D2(b1: byte, b2: byte): digit { b1 % 4 * 16 + b2 / 16 }
  function D3(b2: byte, b3: byte): digit { b2 % 16 * 4 + b3 / 64 }
  function D4(b3: byte): digit { b3 % 64 }
  function B1(d1: digit, d2: digit): byte { d1 * 4 + d2 / 16 }
  function B2(d2: digit, d3: digit): byte { d2 % 16 * 16 + d3 / 4 }
  function B3(d3: digit, d4: digit): byte { d3 % 4 * 64 + d4 }

  /** The digits of some bytes: the bits of the bytes in order, six by six, padded with zeros. */
  function DigitsOf(b: seq<byte>): (ds: seq<digit>)
    ensures |ds| == Length(|b|)
  {
    if b == [] then []
    else if |b| == 1 then [D1(b[0]), D2(b[0], 0)]
    else if |b| == 2 then [D1(b[0]), D2(b[0], b[1]), D3(b[1], 0)]
    else [D1(b[0]), D2(b[0], b[1]), D3(b[1], b[2]), D4(b[2])] + DigitsOf(b[3..])
  }

  function BytesOf(ds: seq<digit>, n: nat): (b: seq<byte>)
    requires |ds| == Length(n)
    ensures |b| == n
  {
    if n == 0 then []
    else if n == 1 then [B1(ds[0], ds[1])]
    else if n == 2 then [B1(ds[0], ds[1]), B2(ds[1], ds[2])]
    else [B1(ds[0], ds[1]), B2(ds[1], ds[2]), B3(ds[2], ds[3])] + BytesOf(ds[4..], n - 3)
  }

  function Text(ds: seq<digit>): (s: string)
    ensures |s| == |ds|
  {
    seq(|ds|, i requires 0 <= i < |ds| => Itoa(ds[i]))
  }

  /** The first `m` characters as digits, if all of them are. */
  function Values(s: string, m: nat): (ds: Option<seq<digit>>)
    ensures ds.Some? ==> m <= |s| && |ds.value| == m
    ensures ds.Some? ==> forall i :: 0 <= i < m ==> Atoi(s[i]) == Some(ds.value[i])
  {
    if m <= |s| && forall i :: 0 <= i < m ==> Atoi(s[i]).Some?
    then Some(seq(m, i requires 0 <= i < m => Atoi(s[i]).value))
    else None
  }

  function Encoded(b: seq<byte>): (s: string)
    ensures |s| == Length(|b|)
  {
    Text(DigitsOf(b))
  }

  function Decoded(s: string, n: nat): (b: Option<seq<byte>>)
    ensures b.Some? ==> |b.value| == n && |s| >= Length(n)
  {
    var ds := Values(s, Length(n));
    if ds.None? then None else Some(BytesOf(ds.value, n))
  }

  // ---- Inverses --------------------------------------------------------------------------------

  lemma Regrouped(b1: byte, b2: byte, b3: byte)
    ensures B1(D1(b1), D2(b1, b2)) == b1 && B2(D2(b1, b2), D3(b2, b3)) == b2 && B3(D3(b2, b3), D4(b3)) == b3
  {
  }

  lemma Ungrouped(d1: digit, d2: digit, d3: digit, d4: digit)
    ensures D1(B1(d1, d2)) == d1 && D2(B1(d1, d2), B2(d2, d3)) == d2
    ensures D3(B2(d2, d3), B3(d3, d4)) == d3 && D4(B3(d3, d4)) == d4
    ensures D2(B1(d1, d2), 0) == d2 / 16 * 16 && D3(B2(d2, d3), 0) == d3 / 4 * 4
  {
  }

  lemma {:induction false} BytesOfDigits(b: seq<byte>)
    ensures BytesOf(DigitsOf(b), |b|) == b
    decreases |b|
  {
    hide D1, D2, D3, D4, B1, B2, B3;
    if b != [] {
      Regrouped(b[0], if |b| > 1 then b[1] else 0, if |b| > 2 then b[2] else 0);
      if |b| >= 3 {
        assert DigitsOf(b)[4..] == DigitsOf(b[3..]);
        BytesOfDigits(b[3..]);
      }
    }
  }

  /** The digits with the bits that `n` bytes leave unused in the last one cleared. */
  function Cleared(ds: seq<digit>, n: nat): seq<digit>
    requires |ds| == Length(n)
  {
    var last := |ds| - 1;
    if n % 3 == 1 then ds[last := ds[last] / 16 * 16] else if n % 3 == 2 then ds[last := ds[last] / 4 * 4] else ds
  }

  lemma {:induction false} DigitsOfBytes(ds: seq<digit>, n: nat)
    requires |ds| == Length(n)
    ensures DigitsOf(BytesOf(ds, n)) == Cleared(ds, n)
    decreases n
  {
    hide D1, D2, D3, D4, B1, B2, B3;
    if n > 0 {
      Ungrouped(ds[0], ds[1], if n > 1 then ds[2] else 0, if n > 2 then ds[3] else 0);
      if n >= 3 {
        hide Cleared;
        DigitsOfBytes(ds[4..], n - 3);
        assert BytesOf(ds, n)[3..] == BytesOf(ds[4..], n - 3);
        ClearedStep(ds, n);
      }
    }
  }

  lemma ClearedStep(ds: seq<digit>, n: nat)
    requires |ds| == Length(n) && n >= 3
    ensures Cleared(ds, n) == [ds[0], ds[1], ds[2], ds[3]] + Cleared(ds[4..], n - 3)
  {
  }

  /** Reading back what was written gives the bytes, whatever follows them. */
  lemma EncodeThenDecode(b: seq<byte>, rest: string)
    ensures Decoded(Encoded(b) + rest, |b|) == Some(b)
  {
    var s := Encoded(b) + rest;
    forall i | 0 <= i < Length(|b|) ensures Atoi(s[i]) == Some(DigitsOf(b)[i]) {
      AtoiItoa(DigitsOf(b)[i]);
    }
    assert Values(s, Length(|b|)).value == DigitsOf(b);
    BytesOfDigits(b);
  }

  /** Writing what was read gives the digits back, the unused bits of the last one cleared. */
  lemma DecodeThenEncode(s: string, n: nat)
    requires Decoded(s, n).Some?
    ensures Encoded(Decoded(s, n).value) == Text(Cleared(Values(s, Length(n)).value, n))
  {
    DigitsOfBytes(Values(s, Length(n)).value, n);
  }

  /** Writing after reading changes no character but the last. */
  lemma SameDigits(s: string, n: nat)
    requires Decoded(s, n).Some? && n > 0
    ensures Encoded(Decoded(s, n).value)[..Length(n) - 1] == s[..Length(n) - 1]
  {
    DecodeThenEncode(s, n);
  }

  // ---- What the digits are ---------------------------------------------------------------------

  const UPPER := "ABCDEFGHIJKLMNOPQRSTUVWXYZ"

  const LOWER := "abcdefghijklmnopqrstuvwxyz"

  const DECIMAL := "0123456789"

  /** The string that `BF_itoa64` is initialised with. */
  const ALPHABET := "./" + UPPER + LOWER + DECIMAL

  lemma LettersAre(k: nat)
    ensures |UPPER| == |LOWER| == 26
    ensures k < 26 ==> UPPER[k] as int == 'A' as int + k && LOWER[k] as int == 'a' as int + k
  {
  }

  lemma DecimalsAre(k: nat)
    ensures |DECIMAL| == 10
    ensures k < 10 ==> DECIMAL[k] as int == '0' as int + k
  {
  }

  lemma AlphabetIs(d: digit)
    ensures |ALPHABET| == 64 && ALPHABET[d] == Itoa(d)
  {
    LettersAre(if d < 2 then 0 else if d < 28 then d - 2 else if d < 54 then d - 28 else 0);
    DecimalsAre(if d < 54 then 0 else d - 54);
    hide UPPER, LOWER, DECIMAL;
  }

  /** The digits are the places of the characters in the alphabet. */
  lemma DigitsAreAlphabet(c: char, d: digit)
    ensures |ALPHABET| == 64 && (Atoi(c) == Some(d) <==> c == ALPHABET[d])
    ensures Atoi(c).Some? <==> c in ALPHABET
  {
    hide ALPHABET;
    AlphabetIs(d);
    AtoiItoa(d);
    if Atoi(c).Some? {
      AlphabetIs(Atoi(c).value);
    }
    if c in ALPHABET {
      var k: digit :| c == ALPHABET[k];
      AlphabetIs(k);
      AtoiItoa(k);
    }
  }

  /** The number that `xs` write in base `base` after `high`, most significant first. */
  function Horner(high: nat, xs: seq<nat>, base: nat): nat
    decreases |xs|
  {
    if xs == [] then high else Horner(base * high + xs[0], xs[1..], base)
  }

  lemma HornerStep(high: nat, x: nat, rest: seq<nat>, base: nat)
    ensures Horner(high, [x] + rest, base) == Horner(base * high + x, rest, base)
  {
    assert ([x] + rest)[1..] == rest;
  }

  lemma FourDigits(high: nat, d1: nat, d2: nat, d3: nat, d4: nat, rest: seq<nat>)
    ensures Horner(high, [d1, d2, d3, d4] + rest, 64)
            == Horner(16777216 * high + 262144 * d1 + 4096 * d2 + 64 * d3 + d4, rest, 64)
  {
    hide Horner;
    assert [d1, d2, d3, d4] + rest == [d1] + ([d2] + ([d3] + ([d4] + rest)));
    var h1 := 64 * high + d1;
    var h2 := 64 * h1 + d2;
    HornerStep(high, d1, [d2] + ([d3] + ([d4] + rest)), 64);
    HornerStep(h1, d2, [d3] + ([d4] + rest), 64);
    HornerStep(h2, d3, [d4] + rest, 64);
    HornerStep(64 * h2 + d3, d4, rest, 64);
  }

  lemma ThreeBytes(high: nat, b1: nat, b2: nat, b3: nat, rest: seq<nat>)
    ensures Horner(high, [b1, b2, b3] + rest, 256)
            == Horner(16777216 * high + 65536 * b1 + 256 * b2 + b3, rest, 256)
  {
    hide Horner;
    assert [b1, b2, b3] + rest == [b1] + ([b2] + ([b3] + rest));
    var h1 := 256 * high + b1;
    HornerStep(high, b1, [b2] + ([b3] + rest), 256);
    HornerStep(h1, b2, [b3] + rest, 256);
    HornerStep(256 * h1 + b2, b3, rest, 256);
  }

  lemma TwoFigures(high: nat, x: nat, y: nat, base: nat)
    ensures Horner(high, [x, y], base) == base * (base * high + x) + y
    ensures Horner(high, [x], base) == base * high + x
  {
    assert [x, y] == [x] + [y] && [y] == [y] + [] && [x] == [x] + [];
    HornerStep(high, x, [y], base);
    HornerStep(base * high + x, y, [], base);
    HornerStep(high, x, [], base);
  }

  lemma ThreeFigures(high: nat, x: nat, y: nat, z: nat, base: nat)
    ensures Horner(high, [x, y, z], base) == base * (base * (base * high + x) + y) + z
  {
    assert [x, y, z] == [x] + [y, z];
    HornerStep(high, x, [y, z], base);
    TwoFigures(base * high + x, y, z, base);
  }

  lemma GroupNumber(b1: byte, b2: byte, b3: byte)
    ensures 262144 * (D1(b1) as nat) + 4096 * (D2(b1, b2) as nat) + 64 * (D3(b2, b3) as nat) + D4(b3)
            == 65536 * (b1 as nat) + 256 * (b2 as nat) + b3
  {
  }

  /** The digits write the number that the bytes write, shifted by the unused bits of the last one. */
  lemma {:induction false} DigitsAreNumber(b: seq<byte>, high: nat)
    ensures |b| % 3 == 0 ==> Horner(high, DigitsOf(b), 64) == Horner(high, b, 256)
    ensures |b| % 3 == 1 ==> Horner(high, DigitsOf(b), 64) == 16 * Horner(high, b, 256)
    ensures |b| % 3 == 2 ==> Horner(high, DigitsOf(b), 64) == 4 * Horner(high, b, 256)
    decreases |b|
  {
    hide Horner, D1, D2, D3, D4, DigitsOf, Length;
    if |b| < 3 {
      LastDigits(b);
    }
    if |b| >= 3 {
      FirstDigits(b);
      assert b == [b[0], b[1], b[2]] + b[3..];
      var next := GroupStep(b[0], b[1], b[2], b[3..], high);
      DigitsAreNumber(b[3..], next);
    } else if |b| == 2 {
      assert b == [b[0], b[1]];
      TwoBytesNumber(b[0], b[1], high);
    } else if |b| == 1 {
      assert b == [b[0]];
      OneByteNumber(b[0], high);
    } else {
      assert b == [];
      NoFigures(high, 64);
      NoFigures(high, 256);
    }
  }

  lemma LastDigits(b: seq<byte>)
    requires |b| < 3
    ensures |b| == 0 ==> DigitsOf(b) == []
    ensures |b| == 1 ==> DigitsOf(b) == [D1(b[0]), D2(b[0], 0)]
    ensures |b| == 2 ==> DigitsOf(b) == [D1(b[0]), D2(b[0], b[1]), D3(b[1], 0)]
  {
    hide D1, D2, D3, D4, Length;
  }

  lemma FirstDigits(b: seq<byte>)
    requires |b| >= 3
    ensures DigitsOf(b) == [D1(b[0]), D2(b[0], b[1]), D3(b[1], b[2]), D4(b[2])] + DigitsOf(b[3..])
  {
    hide D1, D2, D3, D4, Length;
  }

  lemma GroupStep(b1: byte, b2: byte, b3: byte, rest: seq<byte>, high: nat) returns (next: nat)
    ensures Horner(high, [b1, b2, b3] + rest, 256) == Horner(next, rest, 256)
    ensures Horner(high, [D1(b1), D2(b1, b2), D3(b2, b3), D4(b3)] + DigitsOf(rest), 64)
            == Horner(next, DigitsOf(rest), 64)
  {
    hide Horner, DigitsOf, D1, D2, D3, D4;
    var x1: nat, x2: nat, x3: nat := b1, b2, b3;
    next := 16777216 * high + 65536 * x1 + 256 * x2 + x3;
    ThreeBytes(high, x1, x2, x3, rest);
    FourDigits(high, D1(b1), D2(b1, b2), D3(b2, b3), D4(b3), DigitsOf(rest));
    GroupNumber(b1, b2, b3);
  }

  lemma TwoBytesNumber(b1: byte, b2: byte, high: nat)
    ensures Horner(high, [D1(b1), D2(b1, b2), D3(b2, 0)], 64) == 4 * Horner(high, [b1, b2], 256)
  {
    hide Horner;
    TwoFigures(high, b1, b2, 256);
    ThreeFigures(high, D1(b1), D2(b1, b2), D3(b2, 0), 64);
  }

  lemma OneByteNumber(b1: byte, high: nat)
    ensures Horner(high, [D1(b1), D2(b1, 0)], 64) == 16 * Horner(high, [b1], 256)
  {
    hide Horner;
    TwoFigures(high, b1, 0, 256);
    TwoFigures(high, D1(b1), D2(b1, 0), 64);
  }

  lemma NoFigures(high: nat, base: nat)
    ensures Horner(high, [], base) == high
  {
  }

  // ---- The loops -------------------------------------------------------------------------------

  /** The text of the first group. */
  lemma GroupText(b: seq<byte>, t: string)
    requires b != [] && |t| == (if |b| < 3 then |b| + 1 else 4)
    requires t[0] == Itoa(D1(b[0])) && t[1] == Itoa(D2(b[0], if |b| > 1 then b[1] else 0))
    requires |b| > 1 ==> t[2] == Itoa(D3(b[1], if |b| > 2 then b[2] else 0))
    requires |b| > 2 ==> t[3] == Itoa(D4(b[2]))
    ensures Text(DigitsOf(b)) == t + Text(DigitsOf(b[if |b| < 3 then |b| else 3..]))
  {
    hide D1, D2, D3, D4, Itoa, DigitsOf, Length;
    if |b| < 3 {
      LastDigits(b);
      LastDigits(b[|b|..]);
    } else {
      FirstDigits(b);
    }
  }

  /** Writes the digits of `src` into `dst` from index `at` on. */
  method Encode(dst: array<char>, at: nat, src: array<byte>, size: nat)
    requires 1 <= size <= src.Length && at + Length(size) <= dst.Length
    modifies dst
    ensures dst[at..at + Length(size)] == Encoded(src[..size])
    ensures forall i :: 0 <= i < at || at + Length(size) <= i < dst.Length ==> dst[i] == old(dst[i])
  {
    assert Length(0) == 0;
    hide Itoa, DigitsOf, Text, Length;
    ghost var all := Encoded(src[..size]);
    assert src[0..size] == src[..size];
    var sptr, dptr := 0, at;
    var more := true;
    while more
      invariant sptr <= size && (more <==> sptr < size)
      invariant at <= dptr && dptr + Length(size - sptr) == at + Length(size)
      invariant forall i :: 0 <= i < at || at + Length(size) <= i < dst.Length ==> dst[i] == old(dst[i])
      invariant dptr <= at + |all| && all[dptr - at..] == Text(DigitsOf(src[sptr..size]))
      invariant forall i :: at <= i < dptr ==> dst[i] == all[i - at]
      decreases more, size - sptr
    {
      ghost var start, rest := dptr, all[dptr - at..];
      sptr, dptr, more := EncodeGroup(dst, dptr, src, sptr, size);
      assert rest[dptr - start..] == all[dptr - at..];
    }
  }

  /** One turn of the loop of `BF_encode`; `more` tells whether bytes remain. */
  method EncodeGroup(dst: array<char>, start: nat, src: array<byte>, from: nat, size: nat)
    returns (sptr: nat, dptr: nat, more: bool)
    requires from < size <= src.Length && start + Length(size - from) <= dst.Length
    modifies dst
    ensures sptr == (if size - from < 3 then size else from + 3) && dptr == start + (sptr - from) + 1
    ensures more <==> sptr < size
    ensures dptr + Length(size - sptr) == start + Length(size - from)
    ensures forall i :: 0 <= i < start || dptr <= i < dst.Length ==> dst[i] == old(dst[i])
    ensures var all := Text(DigitsOf(src[from..size]));
            && dptr - start <= |all| && all[dptr - start..] == Text(DigitsOf(src[sptr..size]))
            && forall i :: start <= i < dptr ==> dst[i] == all[i - start]
  {
    hide Itoa, DigitsOf, Text;
    ghost var b := src[from..size];
    sptr, dptr, more := from, start, false;
    var c1 := src[sptr];
    sptr := sptr + 1;
    dst[dptr] := Itoa(c1 / 4);
    dptr := dptr + 1;
    c1 := c1 % 4 * 16;
    if sptr >= size {
      dst[dptr] := Itoa(c1);
      dptr := dptr + 1;
      assert c1 == D2(b[0], 0);
      GroupText(b, dst[start..dptr]);
      return;
    }
    var c2 := src[sptr];
    sptr := sptr + 1;
    c1 := c1 + c2 / 16;
    assert c1 == D2(b[0], b[1]);
    dst[dptr] := Itoa(c1);
    dptr := dptr + 1;
    c1 := c2 % 16 * 4;
    if sptr >= size {
      dst[dptr] := Itoa(c1);
      dptr := dptr + 1;
      GroupText(b, dst[start..dptr]);
      return;
    }
    c2 := src[sptr];
    sptr := sptr + 1;
    c1 := c1 + c2 / 64;
    assert c1 == D3(b[1], b[2]);
    dst[dptr] := Itoa(c1);
    dptr := dptr + 1;
    dst[dptr] := Itoa(c2 % 64);
    dptr := dptr + 1;
    GroupText(b, dst[start..dptr]);
    assert b[3..] == src[sptr..size];
    more := sptr < size;
  }

  /** The digit at `i` of a NUL-terminated string. */
  function Digit(s: string, i: nat): (d: Option<digit>)
    ensures d.Some? ==> i < |s|
  {
    if i < |s| then Atoi(s[i]) else None
  }

  /** The first group read. */
  lemma DecodedStep(s: string, n: nat)
    requires n > 0
    ensures Digit(s, 0).None? || Digit(s, 1).None? ==> Decoded(s, n) == None
    ensures n > 1 && Digit(s, 2).None? ==> Decoded(s, n) == None
    ensures n > 2 && Digit(s, 3).None? ==> Decoded(s, n) == None
    ensures n == 1 && Decoded(s, n).None? ==> Digit(s, 0).None? || Digit(s, 1).None?
    ensures n == 2 && Decoded(s, n).None? ==> Digit(s, 0).None? || Digit(s, 1).None? || Digit(s, 2).None?
    ensures n >= 3 && Decoded(s, n).None? ==>
      Digit(s, 0).None? || Digit(s, 1).None? || Digit(s, 2).None? || Digit(s, 3).None? || Decoded(s[4..], n - 3).None?
    ensures n >= 3 && Decoded(s, n).Some? ==> Decoded(s[4..], n - 3).Some?
  {
    hide Atoi, BytesOf;
    var m := Length(n);
    if n >= 3 {
      assert |s| >= 4 ==> forall i :: 0 <= i < |s| - 4 ==> s[4..][i] == s[i + 4];
      if |s| >= 4 && Values(s, m).None? && m <= |s| {
        var i :| 0 <= i < m && Atoi(s[i]).None?;
        if i >= 4 {
          assert s[4..][i - 4] == s[i];
        }
      }
    }
  }

  lemma DecodedValue(s: string, n: nat)
    requires n > 0 && Decoded(s, n).Some?
    ensures var b := Decoded(s, n).value;
            && Digit(s, 0).Some? && Digit(s, 1).Some? && b[0] == B1(Digit(s, 0).value, Digit(s, 1).value)
            && (n > 1 ==> Digit(s, 2).Some? && b[1] == B2(Digit(s, 1).value, Digit(s, 2).value))
            && (n > 2 ==> Digit(s, 3).Some? && b[2] == B3(Digit(s, 2).value, Digit(s, 3).value))
            && (n > 2 ==> Decoded(s[4..], n - 3).Some? && b[3..] == Decoded(s[4..], n - 3).value)
  {
    hide Atoi, B1, B2, B3;
    var ds := Values(s, Length(n)).value;
    if n >= 3 {
      assert Values(s[4..], Length(n - 3)).value == ds[4..];
    }
  }

  lemma DecodedNone(s: string)
    ensures Decoded(s, 0) == Some([])
  {
  }

  lemma FirstByte(d1: digit, d2: digit)
    ensures B1(d1, d2) == d1 as nat * 4 + d2 as nat / 16
  {
  }

  lemma SecondByte(d2: digit, d3: digit)
    ensures B2(d2, d3) == d2 as nat % 16 * 16 + d3 as nat / 4
  {
  }

  lemma ThirdByte(d3: digit, d4: digit)
    ensures B3(d3, d4) == d3 as nat % 4 * 64 + d4 as nat
  {
  }

  /** One turn of the loop of `BF_decode`: reads a group at the front of `s`, into `dst` from `from` on. */
  method DecodeGroup(dst: array<byte>, from: nat, end: nat, s: string) returns (ok: bool, dptr: nat)
    requires from < end <= dst.Length
    modifies dst
    ensures from <= dptr && forall i :: 0 <= i < from || dptr <= i < dst.Length ==> dst[i] == old(dst[i])
    ensures ok ==> dptr == if end - from < 3 then end else from + 3
    ensures !ok ==> Decoded(s, end - from).None? && dptr <= end
    ensures ok && Decoded(s, end - from).Some? ==> dst[from..dptr] == Decoded(s, end - from).value[..dptr - from]
    ensures ok && dptr == end ==> Decoded(s, end - from).Some?
    ensures ok && dptr < end ==> |s| >= 4
    ensures ok && dptr < end ==> (Decoded(s, end - from).Some? <==> Decoded(s[4..], end - dptr).Some?)
    ensures ok && dptr < end && Decoded(s, end - from).Some? ==>
      Decoded(s, end - from).value[3..] == Decoded(s[4..], end - dptr).value
  {
    hide Decoded, Atoi, Digit, Length, B1, B2, B3;
    ghost var n := end - from;
    DecodedStep(s, n);
    if Decoded(s, n).Some? {
      DecodedValue(s, n);
    }
    ok, dptr := false, from;
    var d1 := Digit(s, 0);
    if d1.None? {
      return;
    }
    var d2 := Digit(s, 1);
    if d2.None? {
      return;
    }
    var c1: nat, c2: nat := d1.value, d2.value;
    FirstByte(d1.value, d2.value);
    dst[dptr] := c1 * 4 + c2 / 16;
    dptr := dptr + 1;
    if dptr >= end {
      ok := true;
      return;
    }
    var d3 := Digit(s, 2);
    if d3.None? {
      return;
    }
    var c3: nat := d3.value;
    SecondByte(d2.value, d3.value);
    dst[dptr] := c2 % 16 * 16 + c3 / 4;
    dptr := dptr + 1;
    if dptr >= end {
      ok := true;
      return;
    }
    var d4 := Digit(s, 3);
    if d4.None? {
      return;
    }
    var c4: nat := d4.value;
    DecodedNone(s[4..]);
    ThirdByte(d3.value, d4.value);
    dst[dptr] := c3 % 4 * 64 + c4;
    dptr := dptr + 1;
    ok := true;
  }

  /** Reads `size` bytes into `dst`; fails exactly when one of their digits is missing or wrong. */
  method Decode(dst: array<byte>, src: string, size: nat) returns (ok: bool)
    requires 1 <= size <= dst.Length
    modifies dst
    ensures ok <==> Decoded(src, size).Some?
    ensures ok ==> dst[..size] == Decoded(src, size).value
    ensures forall i :: size <= i < dst.Length ==> dst[i] == old(dst[i])
  {
    hide Decoded;
    ghost var all := Decoded(src, size);
    var sptr, dptr := 0, 0;
    assert src[0..] == src;
    while dptr < size
      invariant sptr <= |src| && dptr <= size
      invariant forall i :: size <= i < dst.Length ==> dst[i] == old(dst[i])
      invariant dptr < size ==> (all.Some? <==> Decoded(src[sptr..], size - dptr).Some?)
      invariant dptr == size ==> all.Some?
      invariant all.Some? ==> dst[..dptr] == all.value[..dptr]
      invariant all.Some? && dptr < size ==> all.value[dptr..] == Decoded(src[sptr..], size - dptr).value
    {
      var s := src[sptr..];
      ghost var from := dptr;
      ok, dptr := DecodeGroup(dst, dptr, size, s);
      if !ok {
        return false;
      }
      assert all.Some? ==> dst[from..dptr] == all.value[from..dptr];
      assert all.Some? ==> dst[..dptr] == all.value[..from] + dst[from..dptr];
      if dptr < size {
        sptr := sptr + 4;
        assert s[4..] == src[sptr..];
        assert all.Some? ==> all.value[dptr..] == all.value[from..][3..];
      }
    }
    ok := true;
  }
}
