/** The Blowfish cipher as bcrypt uses it, unrolled, and the textbook network it refines. */
module Blowfish {
  /** A 32-bit word. */
  datatype Word = Word(bits: bv32)

  const ZERO := Word(0)

  function BitXor(a: bv32, b: bv32): bv32 { a ^ b }

  function Xor(a: Word, b: Word): Word { Word(BitXor(a.bits, b.bits)) }

  lemma BitLaws(a: bv32, b: bv32, c: bv32)
    ensures BitXor(a, b) == BitXor(b, a) && BitXor(BitXor(a, b), b) == a && BitXor(a, 0) == a
    ensures BitXor(BitXor(a, b), c) == BitXor(BitXor(a, c), b)
  {
  }

  lemma XorLaws(a: Word, b: Word, c: Word)
    ensures Xor(a, b) == Xor(b, a)
    ensures Xor(Xor(a, b), b) == a
    ensures Xor(a, ZERO) == a
    ensures Xor(Xor(a, b), c) == Xor(Xor(a, c), b)
  {
    hide BitXor;
    BitLaws(a.bits, b.bits, c.bits);
  }

  /** The sub-keys and the four substitution boxes, one after the other. */
  const SUBKEYS := 18
  const WORDS := 18 + 4 * 256

  type Schedule = s: seq<Word> | |s| == WORDS witness seq(WORDS, _ => ZERO)

  /** Entry `x` of box `k`. */
  function Box(s: Schedule, k: nat, x: bv8): Word
    requires k < 4
  {
    s[SUBKEYS + 256 * k + x as nat]
  }

  function BitAdd(a: bv32, b: bv32): bv32 { a + b }

  function Add(a: Word, b: Word): Word { Word(BitAdd(a.bits, b.bits)) }

  /** Addition counts on one by one and wraps at the largest word. */
  lemma AddCounts(a: bv32, b: bv32)
    ensures BitAdd(a, 0) == a && BitAdd(a, b + 1) == BitAdd(a, b) + 1 && BitAdd(0xFFFF_FFFF, 1) == 0
  {
  }

  /** Exclusive or works on any selection of bits apart, and is zero exactly where they agree. */
  lemma XorCompares(a: bv32, b: bv32, mask: bv32)
    ensures BitXor(a, b) & mask == BitXor(a & mask, b & mask)
    ensures BitXor(a, b) == 0 <==> a == b
  {
  }

  /** Byte `k` of a word, the lowest first. */
  function Byte(x: Word, k: nat): bv8
    requires k < 4
  {
    if k == 0 then (x.bits & 0xFF) as bv8
    else if k == 1 then ((x.bits >> 8) & 0xFF) as bv8
    else if k == 2 then ((x.bits >> 16) & 0xFF) as bv8
    else ((x.bits >> 24) & 0xFF) as bv8
  }

  /** The round function: one byte to each box. */
  function F(s: Schedule, x: Word): Word {
    Add(Xor(Add(Box(s, 0, Byte(x, 3)), Box(s, 1, Byte(x, 2))), Box(s, 2, Byte(x, 1))), Box(s, 3, Byte(x, 0)))
  }

  // ---- The textbook network ----------------------------------------------------------------------

  /** From round `i` on: mix in a sub-key, apply `F` to one half, swap; after sixteen rounds undo the
      last swap and mix in the two remaining sub-keys. */
  function Feistel(s: Schedule, i: nat, l: Word, r: Word): (Word, Word)
    requires i <= 16
    decreases 16 - i
  {
    if i == 16 then (Xor(r, s[17]), Xor(l, s[16]))
    else Feistel(s, i + 1, Xor(r, F(s, Xor(l, s[i]))), Xor(l, s[i]))
  }

  function Encrypted(s: Schedule, l: Word, r: Word): (Word, Word) {
    Feistel(s, 0, l, r)
  }

  // ---- The unrolled form -------------------------------------------------------------------------

  /** `BF_ROUND(L, R, N)`: the new value of R. */
  function Round(s: Schedule, n: nat, l: Word, r: Word): Word
    requires n < 16
  {
    Xor(Xor(r, s[n + 1]), F(s, l))
  }

  /** One round of the unrolled form, which mixes each sub-key in one round early. */
  lemma RoundIsFeistel(s: Schedule, n: nat, a: Word, b: Word)
    requires n < 16
    ensures Feistel(s, n, Xor(a, s[n]), b) == Feistel(s, n + 1, Xor(Round(s, n, a, b), s[n + 1]), a)
  {
    hide F, Xor;
    XorLaws(a, s[n], ZERO);
    XorLaws(b, s[n + 1], F(s, a));
    XorLaws(Xor(b, F(s, a)), s[n + 1], ZERO);
  }

  lemma LastRound(s: Schedule, a: Word, b: Word)
    ensures Feistel(s, 16, Xor(a, s[16]), b) == (Xor(b, s[17]), a)
  {
    hide Xor;
    XorLaws(a, s[16], ZERO);
  }

  // ---- Decryption --------------------------------------------------------------------------------

  /** The same boxes with the sub-keys in reverse order. */
  function Reversed(s: Schedule): (t: Schedule)
    ensures forall i :: 0 <= i < SUBKEYS ==> t[i] == s[SUBKEYS - 1 - i]
    ensures t[SUBKEYS..] == s[SUBKEYS..]
  {
    seq(SUBKEYS, i requires 0 <= i < SUBKEYS => s[SUBKEYS - 1 - i]) + s[SUBKEYS..]
  }

  /** The halves before round `i`. */
  function Halves(s: Schedule, i: nat, l: Word, r: Word): (Word, Word)
    requires i <= 16
  {
    if i == 0 then (l, r)
    else
      var (a, b) := Halves(s, i - 1, l, r);
      (Xor(b, F(s, Xor(a, s[i - 1]))), Xor(a, s[i - 1]))
  }

  lemma {:induction false} FeistelFrom(s: Schedule, i: nat, l: Word, r: Word)
    requires i <= 16
    ensures Encrypted(s, l, r) == Feistel(s, i, Halves(s, i, l, r).0, Halves(s, i, l, r).1)
  {
    hide Xor, F;
    if i > 0 {
      FeistelFrom(s, i - 1, l, r);
    }
  }

  lemma SameBox(s: Schedule, k: nat, x: bv8)
    requires k < 4
    ensures Box(Reversed(s), k, x) == Box(s, k, x)
  {
    var i := 256 * k + x as nat;
    assert Reversed(s)[SUBKEYS..][i] == s[SUBKEYS..][i];
  }

  lemma SameF(s: Schedule, x: Word)
    ensures F(Reversed(s), x) == F(s, x)
  {
    hide Xor, Add, Byte, Box, Reversed;
    SameBox(s, 0, Byte(x, 3));
    SameBox(s, 1, Byte(x, 2));
    SameBox(s, 2, Byte(x, 1));
    SameBox(s, 3, Byte(x, 0));
  }

  /** Reversed sub-keys undo the first `i` rounds. */
  lemma {:induction false} Undo(s: Schedule, i: nat, l: Word, r: Word)
    requires i <= 16
    ensures var (a, b) := Halves(s, i, l, r); Feistel(Reversed(s), 16 - i, Xor(b, s[i + 1]), Xor(a, s[i])) == (l, r)
  {
    hide Xor, F, Reversed;
    var t := Reversed(s);
    var (a, b) := Halves(s, i, l, r);
    XorLaws(b, s[i + 1], ZERO);
    if i == 0 {
      XorLaws(a, s[0], ZERO);
    } else {
      var (c, d) := Halves(s, i - 1, l, r);
      SameF(s, b);
      XorLaws(d, F(s, b), s[i]);
      XorLaws(Xor(d, s[i]), F(s, b), ZERO);
      Undo(s, i - 1, l, r);
    }
  }

  /** For any sub-keys and boxes, encryption with the sub-keys reversed undoes encryption. */
  lemma DecryptUndoesEncrypt(s: Schedule, l: Word, r: Word)
    ensures var (a, b) := Encrypted(s, l, r); Encrypted(Reversed(s), a, b) == (l, r)
  {
    hide Xor, F, Reversed;
    FeistelFrom(s, 16, l, r);
    Undo(s, 16, l, r);
  }

  /** So encryption is a bijection on pairs of words: no two pairs have one image, and every pair is
      the image of its decryption. */
  lemma Bijection(s: Schedule, l: Word, r: Word, l': Word, r': Word)
    ensures Encrypted(s, l, r) == Encrypted(s, l', r') ==> l == l' && r == r'
    ensures var (a, b) := Encrypted(Reversed(s), l, r); Encrypted(s, a, b) == (l, r)
  {
    hide Encrypted, Reversed;
    DecryptUndoesEncrypt(s, l, r);
    DecryptUndoesEncrypt(s, l', r');
    DecryptUndoesEncrypt(Reversed(s), l, r);
    ReversedTwice(s);
  }

  lemma ReversedTwice(s: Schedule)
    ensures Reversed(Reversed(s)) == s
  {
    assert Reversed(Reversed(s))[SUBKEYS..] == s[SUBKEYS..];
    assert Reversed(Reversed(s))[..SUBKEYS] == s[..SUBKEYS];
    assert s == s[..SUBKEYS] + s[SUBKEYS..];
  }
}
