/** The bcrypt password hash: the expensive key schedule in place, and the text form of the result. */
module Bcrypt {
  import opened BitNumbers
  import opened Blowfish

  // ---- The reference: the schedule of Provos and Mazieres --------------------------------------------

  type Salt = s: seq<Word> | |s| == 4 witness [ZERO, ZERO, ZERO, ZERO]
  type Key = k: seq<Word> | |k| == SUBKEYS witness seq(SUBKEYS, _ => ZERO)

  const BLOCKS := 521
  const NO_SALT: Salt := [ZERO, ZERO, ZERO, ZERO]

  /** Block `j` encrypts the last block mixed with two words of the salt and becomes words `2j` and
      `2j + 1` of the schedule, sub-keys and boxes alike. */
  function Block(s: Schedule, salt: Salt, j: nat, l: Word, r: Word): (Word, Word) {
    Encrypted(s, Xor(l, salt[2 * j % 4]), Xor(r, salt[(2 * j + 1) % 4]))
  }

  function Blocks(s: Schedule, salt: Salt, j: nat, l: Word, r: Word): Schedule
    requires j <= BLOCKS
    decreases BLOCKS - j
  {
    if j == BLOCKS then s
    else
      var (a, b) := Block(s, salt, j, l, r);
      Blocks(s[2 * j := a][2 * j + 1 := b], salt, j + 1, a, b)
  }

  /** Word `i` of a key, which is repeated as needed. */
  function KeyAt(key: seq<Word>, i: nat): Word
    requires key != []
  {
    key[i % |key|]
  }

  /** The first `n` words mixed with a key, which is repeated as needed. */
  function Mixed(s: Schedule, key: seq<Word>, n: nat): (t: Schedule)
    requires key != []
  {
    seq(WORDS, i requires 0 <= i < WORDS => if i < n then Xor(s[i], KeyAt(key, i)) else s[i])
  }

  function WithKey(s: Schedule, key: seq<Word>): Schedule
    requires key != []
  {
    Mixed(s, key, SUBKEYS)
  }

  function ExpandKey(s: Schedule, salt: Salt, key: seq<Word>): Schedule
    requires key != []
  {
    Blocks(WithKey(s, key), salt, 0, ZERO, ZERO)
  }

  function Rounds(s: Schedule, salt: Salt, key: Key, n: nat): Schedule
    decreases n
  {
    hide ExpandKey;
    if n == 0 then s else Rounds(ExpandKey(ExpandKey(s, NO_SALT, key), NO_SALT, salt), salt, key, n - 1)
  }

  function Setup(init: Schedule, cost: nat, salt: Salt, key: Key): Schedule {
    Rounds(ExpandKey(init, salt, key), salt, key, Pow2(cost))
  }

  /** The schedule and the last block after `j` blocks. */
  function After(s: Schedule, salt: Salt, j: nat): (Schedule, Word, Word)
    requires j <= BLOCKS
  {
    hide Block;
    if j == 0 then (s, ZERO, ZERO)
    else
      var (t, l, r) := After(s, salt, j - 1);
      var (a, b) := Block(t, salt, j - 1, l, r);
      (t[2 * j - 2 := a][2 * j - 1 := b], a, b)
  }

  lemma {:induction false} BlocksAfter(s: Schedule, salt: Salt, j: nat)
    requires j <= BLOCKS
    ensures var (t, l, r) := After(s, salt, j); Blocks(s, salt, 0, ZERO, ZERO) == Blocks(t, salt, j, l, r)
  {
    hide Block;
    if j > 0 {
      BlocksAfter(s, salt, j - 1);
    }
  }

  /** Later blocks leave the words of earlier ones alone. */
  lemma {:induction false} BlocksKeep(s: Schedule, salt: Salt, j: nat, l: Word, r: Word, i: nat)
    requires j <= BLOCKS && i < 2 * j
    ensures Blocks(s, salt, j, l, r)[i] == s[i]
    decreases BLOCKS - j
  {
    hide Block;
    if j < BLOCKS {
      var (a, b) := Block(s, salt, j, l, r);
      BlocksKeep(s[2 * j := a][2 * j + 1 := b], salt, j + 1, a, b, i);
    }
  }

  /** One pass of 521 blocks fills each of the 18 sub-keys and 1024 box entries exactly once, in
      order: words `2j` and `2j + 1` end as the two halves of block `j`, which mixed in words
      `2j mod 4` and `(2j + 1) mod 4` of the salt. */
  lemma EachWordOnce(s: Schedule, salt: Salt, j: nat)
    requires j < BLOCKS
    ensures var (t, l, r) := After(s, salt, j);
            (Blocks(s, salt, 0, ZERO, ZERO)[2 * j], Blocks(s, salt, 0, ZERO, ZERO)[2 * j + 1]) == Block(t,
                salt, j, l, r)
  {
    hide Block, Blocks;
    var (t, l, r) := After(s, salt, j + 1);
    BlocksAfter(s, salt, j + 1);
    BlocksKeep(t, salt, j + 1, l, r, 2 * j);
    BlocksKeep(t, salt, j + 1, l, r, 2 * j + 1);
  }

  // ---- Key words -------------------------------------------------------------------------------------

  /** Byte `k` of the key and its terminating NUL repeated for ever. */
  function StreamByte(key: seq<bv8>, k: nat): bv8 {
    var at := k % (|key| + 1);
    if at == |key| then 0 else key[at]
  }

  /** A byte as the loop ors it in: sign-extended in the `2x` mode. */
  function Widened(b: bv8, signBug: bool): bv32 {
    if signBug && b >= 0x80 then 0xFFFFFF00 | b as bv32 else b as bv32
  }

  function ShiftIn(word: Word, b: bv8, signBug: bool): Word {
    Word((word.bits << 8) | Widened(b, signBug))
  }

  /** The word made of the first `j` of the four bytes from `k` on. */
  function Gathered(key: seq<bv8>, k: nat, j: nat, signBug: bool): Word {
    if j == 0 then ZERO else ShiftIn(Gathered(key, k, j - 1, signBug), StreamByte(key, k + j - 1), signBug)
  }

  function KeyWords(key: seq<bv8>, signBug: bool): Key {
    seq(SUBKEYS, i requires 0 <= i < SUBKEYS => Gathered(key, 4 * i, 4, signBug))
  }

  function BigEndian(b1: bv8, b2: bv8, b3: bv8, b4: bv8): Word {
    Word(((b1 as bv32) << 24) | ((b2 as bv32) << 16) | ((b3 as bv32) << 8) | b4 as bv32)
  }

  /** In the `2a` mode word `i` packs bytes `4i .. 4i + 3` of the repeated key. */
  lemma KeyWordPacksFour(key: seq<bv8>, i: nat)
    requires i < SUBKEYS
    ensures KeyWords(key, false)[i] ==
            BigEndian(StreamByte(key, 4 * i), StreamByte(key, 4 * i + 1), StreamByte(key, 4 * i + 2),
                StreamByte(key, 4 * i + 3))
  {
    hide StreamByte, ShiftIn;
    FourShifts(StreamByte(key, 4 * i), StreamByte(key, 4 * i + 1), StreamByte(key, 4 * i + 2), StreamByte(key,
        4 * i + 3), false);
    GatherFour(key, 4 * i, false);
  }

  lemma GatherFour(key: seq<bv8>, k: nat, signBug: bool)
    ensures Gathered(key, k, 4, signBug) ==
            ShiftIn(ShiftIn(ShiftIn(ShiftIn(ZERO, StreamByte(key, k), signBug), StreamByte(key, k + 1), signBug),
                    StreamByte(key, k + 2), signBug), StreamByte(key, k + 3), signBug)
  {
    hide StreamByte, ShiftIn;
    assert Gathered(key, k, 1, signBug) == ShiftIn(ZERO, StreamByte(key, k), signBug);
    assert Gathered(key, k, 2, signBug) == ShiftIn(Gathered(key, k, 1, signBug), StreamByte(key, k + 1), signBug);
    assert Gathered(key, k, 3, signBug) == ShiftIn(Gathered(key, k, 2, signBug), StreamByte(key, k + 2), signBug);
  }

  /** A byte with its top bit set is harmless after bytes that are all ones. */
  predicate Harmless(b1: bv8, b2: bv8, b3: bv8, b4: bv8) {
    && (b2 >= 0x80 ==> b1 == 0xFF)
    && (b3 >= 0x80 ==> b1 == 0xFF && b2 == 0xFF)
    && (b4 >= 0x80 ==> b1 == 0xFF && b2 == 0xFF && b3 == 0xFF)
  }

  lemma FourShifts(b1: bv8, b2: bv8, b3: bv8, b4: bv8, signBug: bool)
    ensures !signBug || Harmless(b1, b2, b3, b4) <==>
            ShiftIn(ShiftIn(ShiftIn(ShiftIn(ZERO, b1, signBug), b2, signBug), b3, signBug), b4,
                signBug) == BigEndian(b1, b2, b3, b4)
  {
  }

  /** The `2x` mode gives another key than the `2a` mode exactly when, in some group of four bytes, a
      byte above 127 follows one that is not 255. */
  lemma SignBugChangesKey(key: seq<bv8>)
    ensures KeyWords(key, true) == KeyWords(key, false) <==>
            forall i :: 0 <= i < SUBKEYS ==>
              Harmless(StreamByte(key, 4 * i), StreamByte(key, 4 * i + 1), StreamByte(key, 4 * i + 2),
                  StreamByte(key, 4 * i + 3))
  {
    hide StreamByte, ShiftIn, Harmless, BigEndian;
    forall i | 0 <= i < SUBKEYS
      ensures KeyWords(key, true)[i] == KeyWords(key, false)[i] <==>
              Harmless(StreamByte(key, 4 * i), StreamByte(key, 4 * i + 1), StreamByte(key, 4 * i + 2),
                  StreamByte(key, 4 * i + 3))
    {
      KeyWordPacksFour(key, i);
      GatherFour(key, 4 * i, true);
      FourShifts(StreamByte(key, 4 * i), StreamByte(key, 4 * i + 1), StreamByte(key, 4 * i + 2),
          StreamByte(key, 4 * i + 3), true);
    }
  }

  lemma NextStreamIndex(k: nat, n: nat)
    requires n > 0
    ensures (k + 1) % n == if k % n == n - 1 then 0 else k % n + 1
  {
    var q := k / n;
    if k % n == n - 1 {
      assert k + 1 == (q + 1) * n + 0;
      ModUnique(k + 1, n, q + 1, 0);
    } else {
      assert k + 1 == q * n + (k % n + 1);
      ModUnique(k + 1, n, q, k % n + 1);
    }
  }

  lemma SaltedBlock(s: Schedule, salt: Salt, j: nat, l: Word, r: Word, a: Word, b: Word)
    requires j < BLOCKS
    requires (a, b) == Encrypted(s, Xor(l, salt[2 * j % 4]), Xor(r, salt[(2 * j + 1) % 4]))
    ensures Blocks(s, salt, j, l, r) == Blocks(s[2 * j := a][2 * j + 1 := b], salt, j + 1, a, b)
  {
    hide Xor, Encrypted;
  }

  lemma SaltWords(salt: Salt)
    ensures forall i :: 0 <= i < SUBKEYS ==>
              KeyAt(salt, i) ==
              if i % 4 == 0 then salt[0] else if i % 4 == 1 then salt[1] else if i % 4 == 2 then salt[2] else salt[3]
  {
  }

  lemma WholeKey(key: Key)
    ensures forall i :: 0 <= i < SUBKEYS ==> KeyAt(key, i) == key[i]
  {
  }

  lemma SaltIndex(j: nat)
    ensures 2 * j % 4 == j % 2 * 2 && (2 * j + 1) % 4 == j % 2 * 2 + 1
  {
    var q := j / 2;
    ModUnique(2 * j, 4, q, j % 2 * 2);
    ModUnique(2 * j + 1, 4, q, j % 2 * 2 + 1);
  }

  lemma PlainBlock(s: Schedule, j: nat, l: Word, r: Word, a: Word, b: Word)
    requires j < BLOCKS && (a, b) == Encrypted(s, l, r)
    ensures Blocks(s, NO_SALT, j, l, r) == Blocks(s[2 * j := a][2 * j + 1 := b], NO_SALT, j + 1, a, b)
  {
    hide Blocks, Xor, Encrypted;
    XorLaws(l, ZERO, ZERO);
    XorLaws(r, ZERO, ZERO);
    assert NO_SALT[2 * j % 4] == ZERO && NO_SALT[(2 * j + 1) % 4] == ZERO;
    SaltedBlock(s, NO_SALT, j, l, r, a, b);
  }

  lemma NoBlocks(s: Schedule, salt: Salt, l: Word, r: Word)
    ensures Blocks(s, salt, BLOCKS, l, r) == s
  {
  }

  // ---- The loops over the context in place -------------------------------------------------------------

  /** `BF_ctx`: the sub-keys and the boxes, changed in place. */
  class Context {
    const p: array<Word>
    const boxes: array<Word>

    predicate Valid() {
      p.Length == SUBKEYS && boxes.Length == WORDS - SUBKEYS && p != boxes
    }

    ghost function Value(): Schedule
      requires Valid()
      reads p, boxes
    {
      p[..] + boxes[..]
    }

    constructor (init: Schedule)
      ensures Valid() && fresh(p) && fresh(boxes) && Value() == init
    {
      p := new Word[SUBKEYS](i requires 0 <= i < SUBKEYS => init[i]);
      boxes := new Word[WORDS - SUBKEYS](i requires 0 <= i < WORDS - SUBKEYS => init[SUBKEYS + i]);
    }

    function BoxAt(k: nat, x: bv8): (w: Word)
      requires Valid() && k < 4
      reads p, boxes
      ensures w == Box(Value(), k, x)
    {
      boxes[256 * k + x as nat]
    }

    function Mix(x: Word): (w: Word)
      requires Valid()
      reads p, boxes
      ensures w == F(Value(), x)
    {
      hide Box, Add, Xor, Byte;
      Add(Xor(Add(BoxAt(0, Byte(x, 3)), BoxAt(1, Byte(x, 2))), BoxAt(2, Byte(x, 1))), BoxAt(3, Byte(x, 0)))
    }

    /** `BF_ROUND(L, R, N)`: the new value of R. It mixes in the sub-key that the textbook network mixes
        in at the start of the next round. */
    function Round(n: nat, l: Word, r: Word): (w: Word)
      requires Valid() && n < 16
      reads p, boxes
      ensures Feistel(Value(), n, Xor(l, Value()[n]), r) == Feistel(Value(), n + 1, Xor(w, Value()[n + 1]), l)
    {
      hide Xor, Feistel, Mix;
      RoundIsFeistel(Value(), n, l, r);
      Xor(Xor(r, p[n + 1]), Mix(l))
    }

    /** `BF_ENCRYPT`. */
    method Encrypt(l0: Word, r0: Word) returns (l: Word, r: Word)
      requires Valid()
      ensures (l, r) == Encrypted(Value(), l0, r0)
    {
      assert Value()[0] == p[0] && Value()[17] == p[17];
      hide Xor, Feistel, Value, Round;
      l, r := Xor(l0, p[0]), r0;
      XorLaws(l0, p[0], ZERO);
      r := Round(0, l, r);
      l := Round(1, r, l);
      r := Round(2, l, r);
      l := Round(3, r, l);
      r := Round(4, l, r);
      l := Round(5, r, l);
      r := Round(6, l, r);
      l := Round(7, r, l);
      r := Round(8, l, r);
      l := Round(9, r, l);
      r := Round(10, l, r);
      l := Round(11, r, l);
      r := Round(12, l, r);
      l := Round(13, r, l);
      r := Round(14, l, r);
      l := Round(15, r, l);
      LastRound(Value(), l, r);
      var tmp4 := r;
      r := l;
      l := Xor(tmp4, p[17]);
    }

    method StoreKey(at: nat, l: Word, r: Word)
      requires Valid() && at + 1 < SUBKEYS
      modifies p
      ensures Valid() && Value() == old(Value())[at := l][at + 1 := r]
    {
      p[at] := l;
      p[at + 1] := r;
    }

    method StoreBox(at: nat, l: Word, r: Word)
      requires Valid() && at + 1 < boxes.Length
      modifies boxes
      ensures Valid() && Value() == old(Value())[SUBKEYS + at := l][SUBKEYS + at + 1 := r]
    {
      boxes[at] := l;
      boxes[at + 1] := r;
    }

    /** `BF_body`. */
    method Body()
      requires Valid()
      modifies p, boxes
      ensures Valid() && Value() == Blocks(old(Value()), NO_SALT, 0, ZERO, ZERO)
    {
      hide Xor, Encrypted, Value, Blocks, Block;
      ghost var end := Blocks(Value(), NO_SALT, 0, ZERO, ZERO);
      var l, r := ZERO, ZERO;
      var ptr := 0;
      while ptr < SUBKEYS
        invariant ptr <= SUBKEYS && ptr % 2 == 0
        invariant Blocks(Value(), NO_SALT, ptr / 2, l, r) == end
      {
        ptr := ptr + 2;
        ghost var s, l0, r0 := Value(), l, r;
        l, r := Encrypt(l, r);
        PlainBlock(s, ptr / 2 - 1, l0, r0, l, r);
        StoreKey(ptr - 2, l, r);
      }
      ptr := 0;
      while ptr < WORDS - SUBKEYS
        invariant ptr <= WORDS - SUBKEYS && ptr % 2 == 0
        invariant Blocks(Value(), NO_SALT, 9 + ptr / 2, l, r) == end
      {
        ptr := ptr + 2;
        ghost var s, l0, r0 := Value(), l, r;
        l, r := Encrypt(l, r);
        PlainBlock(s, 9 + ptr / 2 - 1, l0, r0, l, r);
        StoreBox(ptr - 2, l, r);
      }
      NoBlocks(Value(), NO_SALT, l, r);
    }

    /** The salted pass over the sub-keys and the boxes. */
    method SaltedBody(salt: Salt)
      requires Valid()
      modifies p, boxes
      ensures Valid() && Value() == Blocks(old(Value()), salt, 0, ZERO, ZERO)
    {
      hide Xor, Encrypted, Value, Blocks, Block;
      ghost var end := Blocks(Value(), salt, 0, ZERO, ZERO);
      var l, r := ZERO, ZERO;
      var i := 0;
      while i < SUBKEYS
        invariant i <= SUBKEYS && i % 2 == 0
        invariant Blocks(Value(), salt, i / 2, l, r) == end
      {
        // i & 2
        var k := i / 2 % 2 * 2;
        ghost var s, l0, r0 := Value(), l, r;
        l := Xor(l, salt[k]);
        r := Xor(r, salt[k + 1]);
        l, r := Encrypt(l, r);
        SaltIndex(i / 2);
        SaltedBlock(s, salt, i / 2, l0, r0, l, r);
        StoreKey(i, l, r);
        i := i + 2;
      }
      var ptr := 0;
      while ptr < WORDS - SUBKEYS
        invariant ptr <= WORDS - SUBKEYS && ptr % 4 == 0
        invariant Blocks(Value(), salt, 9 + ptr / 2, l, r) == end
      {
        ptr := ptr + 4;
        ghost var s, l0, r0 := Value(), l, r;
        l := Xor(l, salt[(16 + 2) % 4]);
        r := Xor(r, salt[(16 + 3) % 4]);
        l, r := Encrypt(l, r);
        SaltIndex(7 + ptr / 2);
        SaltedBlock(s, salt, 7 + ptr / 2, l0, r0, l, r);
        StoreBox(ptr - 4, l, r);
        s, l0, r0 := Value(), l, r;
        l := Xor(l, salt[(16 + 4) % 4]);
        r := Xor(r, salt[(16 + 5) % 4]);
        l, r := Encrypt(l, r);
        SaltIndex(8 + ptr / 2);
        SaltedBlock(s, salt, 8 + ptr / 2, l0, r0, l, r);
        StoreBox(ptr - 2, l, r);
      }
      NoBlocks(Value(), salt, l, r);
    }

    method MixAt(n: nat, w: Word, ghost before: Schedule, ghost key: seq<Word>)
      requires Valid() && n < SUBKEYS && key != [] && w == KeyAt(key, n)
      requires Value() == Mixed(before, key, n)
      modifies p
      ensures Valid() && Value() == Mixed(before, key, n + 1)
    {
      hide Xor, KeyAt;
      ghost var was := Value();
      p[n] := Xor(p[n], w);
      assert was[n] == before[n];
      assert Value() == was[n := Xor(before[n], w)];
    }

    /** Mixes the expanded key into the sub-keys. */
    method MixKey(key: Key)
      requires Valid()
      modifies p
      ensures Valid() && Value() == WithKey(old(Value()), key)
    {
      ghost var before := Value();
      assert Mixed(before, key, 0) == before;
      WholeKey(key);
      hide Value, Mixed, KeyAt;
      MixAt(0, key[0], before, key);
      MixAt(1, key[1], before, key);
      MixAt(2, key[2], before, key);
      MixAt(3, key[3], before, key);
      MixAt(4, key[4], before, key);
      MixAt(5, key[5], before, key);
      MixAt(6, key[6], before, key);
      MixAt(7, key[7], before, key);
      MixAt(8, key[8], before, key);
      MixAt(9, key[9], before, key);
      MixAt(10, key[10], before, key);
      MixAt(11, key[11], before, key);
      MixAt(12, key[12], before, key);
      MixAt(13, key[13], before, key);
      MixAt(14, key[14], before, key);
      MixAt(15, key[15], before, key);
      MixAt(16, key[16], before, key);
      MixAt(17, key[17], before, key);
    }

    /** Mixes the salt into the sub-keys. */
    method MixSalt(salt: Salt)
      requires Valid()
      modifies p
      ensures Valid() && Value() == WithKey(old(Value()), salt)
    {
      ghost var before := Value();
      assert Mixed(before, salt, 0) == before;
      var tmp1, tmp2, tmp3, tmp4 := salt[0], salt[1], salt[2], salt[3];
      SaltWords(salt);
      hide Value, Mixed, KeyAt;
      MixAt(0, tmp1, before, salt);
      MixAt(1, tmp2, before, salt);
      MixAt(2, tmp3, before, salt);
      MixAt(3, tmp4, before, salt);
      MixAt(4, tmp1, before, salt);
      MixAt(5, tmp2, before, salt);
      MixAt(6, tmp3, before, salt);
      MixAt(7, tmp4, before, salt);
      MixAt(8, tmp1, before, salt);
      MixAt(9, tmp2, before, salt);
      MixAt(10, tmp3, before, salt);
      MixAt(11, tmp4, before, salt);
      MixAt(12, tmp1, before, salt);
      MixAt(13, tmp2, before, salt);
      MixAt(14, tmp3, before, salt);
      MixAt(15, tmp4, before, salt);
      MixAt(16, tmp1, before, salt);
      MixAt(17, tmp2, before, salt);
    }

    /** The costly loop, which counts down from `2^cost`. */
    method Expensive(count: nat, salt: Salt, key: Key)
      requires Valid() && count > 0
      modifies p, boxes
      ensures Valid() && Value() == Rounds(old(Value()), salt, key, count)
    {
      hide Blocks, WithKey, Value;
      ghost var end := Rounds(Value(), salt, key, count);
      var left := count;
      while left > 0
        invariant Rounds(Value(), salt, key, left) == end
      {
        MixKey(key);
        Body();
        MixSalt(salt);
        Body();
        left := left - 1;
      }
    }
  }

  /** The inner loop of `BF_set_key`: four bytes from the key and its NUL, starting over after the NUL. */
  method NextWord(text: seq<bv8>, ghost key: seq<bv8>, ghost k: nat, from: nat,
      signBug: bool) returns (tmp: Word, ptr: nat)
    requires text == key + [0] && 0 !in key && from == k % |text|
    ensures tmp == Gathered(key, k, 4, signBug) && ptr == (k + 4) % |text|
  {
    hide StreamByte, ShiftIn;
    tmp, ptr := ZERO, from;
    var j := 0;
    while j < 4
      invariant j <= 4 && ptr == (k + j) % |text|
      invariant tmp == Gathered(key, k, j, signBug)
    {
      StreamStep(key, k + j);
      tmp := ShiftIn(tmp, text[ptr], signBug);
      ptr := if text[ptr] == 0 then 0 else ptr + 1;
      j := j + 1;
    }
  }

  lemma AreKeyWords(key: seq<bv8>, signBug: bool, words: Key)
    requires forall k :: 0 <= k < SUBKEYS ==> words[k] == Gathered(key, 4 * k, 4, signBug)
    ensures words == KeyWords(key, signBug)
  {
    hide Gathered;
  }

  lemma AreSubkeys(initial: Schedule, words: Key, subkeys: Key)
    requires forall k :: 0 <= k < SUBKEYS ==> subkeys[k] == Xor(initial[k], words[k])
    ensures subkeys == WithKey(initial, words)[..SUBKEYS]
  {
    hide Xor;
    hide KeyAt;
    WholeKey(words);
  }

  /** `BF_set_key`: the key words, and the sub-keys they give. */
  method SetKey(key: seq<bv8>, initial: Schedule, signBug: bool) returns (expanded: Key, subkeys: Key)
    requires 0 !in key
    ensures expanded == KeyWords(key, signBug)
    ensures subkeys == WithKey(initial, expanded)[..SUBKEYS]
  {
    hide Xor, Gathered, KeyWords, WithKey;
    var text := key + [0];
    var out := new Word[SUBKEYS](_ => ZERO);
    var sub := new Word[SUBKEYS](_ => ZERO);
    var ptr := 0;
    var i := 0;
    while i < SUBKEYS
      invariant i <= SUBKEYS && ptr == 4 * i % |text|
      invariant forall k :: 0 <= k < i ==> out[k] == Gathered(key, 4 * k, 4, signBug)
      invariant forall k :: 0 <= k < i ==> sub[k] == Xor(initial[k], out[k])
    {
      var tmp;
      tmp, ptr := NextWord(text, key, 4 * i, ptr, signBug);
      out[i] := tmp;
      sub[i] := Xor(initial[i], tmp);
      i := i + 1;
    }
    expanded, subkeys := out[..], sub[..];
    AreKeyWords(key, signBug, expanded);
    AreSubkeys(initial, expanded, subkeys);
  }

  lemma StreamStep(key: seq<bv8>, k: nat)
    ensures var text := key + [0];
            && StreamByte(key, k) == text[k % |text|]
            && (k + 1) % |text| == if k % |text| == |key| then 0 else k % |text| + 1
  {
    NextStreamIndex(k, |key| + 1);
  }
}
