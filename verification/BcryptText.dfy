/** bcrypt settings and hashes as text: `CryptoKDFCrypt` and `CryptoKDFGenSaltBlowfish`. */
module BcryptText {
  import opened Wrappers
  import opened BitNumbers
  import opened Radix64
  import opened Blowfish
  import opened Bcrypt

  const MAGIC := [Word(0x4F727068), Word(0x65616E42), Word(0x65686F6C), Word(0x64657253), Word(0x63727944),
      Word(0x6F756274)]

  /** `n` encryptions in a row. */
  function Repeated(s: Schedule, n: nat, l: Word, r: Word): (Word, Word)
    decreases n
  {
    if n == 0 then (l, r)
    else
      var (a, b) := Encrypted(s, l, r);
      Repeated(s, n - 1, a, b)
  }

  function HashWords(s: Schedule): (ws: seq<Word>)
    ensures |ws| == 6
  {
    var (a, b) := Repeated(s, 64, MAGIC[0], MAGIC[1]);
    var (c, d) := Repeated(s, 64, MAGIC[2], MAGIC[3]);
    var (e, f) := Repeated(s, 64, MAGIC[4], MAGIC[5]);
    [a, b, c, d, e, f]
  }

  /** The bytes of some words, and the words of some bytes, most significant byte first: what the
      copies to and from memory and `BF_swap` come to on a little-endian machine. */
  function Octets(ws: seq<Word>): (b: seq<byte>)
    ensures |b| == 4 * |ws|
  {
    seq(4 * |ws|, i requires 0 <= i < 4 * |ws| => Octet(Byte(ws[i / 4], 3 - i % 4)))
  }

  function Octet(b: bv8): byte {
    b as nat
  }

  function Bits(b: byte): bv8 {
    b as bv8
  }

  function SaltOf(b: seq<byte>): Salt
    requires |b| == 16
  {
    seq(4, i requires 0 <= i < 4 =>
      BigEndian(Bits(b[4 * i]), Bits(b[4 * i + 1]), Bits(b[4 * i + 2]), Bits(b[4 * i + 3])))
  }

  lemma BytesOfBits(b1: bv8, b2: bv8, b3: bv8, b4: bv8)
    ensures var x := BigEndian(b1, b2, b3, b4).bits;
            && ((x >> 24) & 0xFF) as bv8 == b1 && ((x >> 16) & 0xFF) as bv8 == b2
            && ((x >> 8) & 0xFF) as bv8 == b3 && (x & 0xFF) as bv8 == b4
  {
  }

  lemma BytesOfWord(b1: bv8, b2: bv8, b3: bv8, b4: bv8)
    ensures var w := BigEndian(b1, b2, b3, b4);
            Byte(w, 3) == b1 && Byte(w, 2) == b2 && Byte(w, 1) == b3 && Byte(w, 0) == b4
  {
    hide BigEndian;
    BytesOfBits(b1, b2, b3, b4);
  }

  lemma BitsOfBytes(x: bv32)
    ensures BigEndian(((x >> 24) & 0xFF) as bv8, ((x >> 16) & 0xFF) as bv8, ((x >> 8) & 0xFF) as bv8,
                      (x & 0xFF) as bv8).bits == x
  {
  }

  lemma WordOfBytes(w: Word)
    ensures BigEndian(Byte(w, 3), Byte(w, 2), Byte(w, 1), Byte(w, 0)) == w
  {
    hide BigEndian;
    BitsOfBytes(w.bits);
  }

  /** Words built from bytes, four at a time, give those bytes back, in that order. */
  lemma OctetsOfWords(b: seq<bv8>, ws: seq<Word>)
    requires |b| == 4 * |ws|
    requires forall i :: 0 <= i < |ws| ==> ws[i] == BigEndian(b[4 * i], b[4 * i + 1], b[4 * i + 2], b[4 * i + 3])
    ensures forall k :: 0 <= k < |b| ==> Octets(ws)[k] == b[k] as nat
  {
    hide Byte, BigEndian;
    forall k | 0 <= k < |b| ensures Octets(ws)[k] == b[k] as nat {
      var i := k / 4;
      BytesOfWord(b[4 * i], b[4 * i + 1], b[4 * i + 2], b[4 * i + 3]);
      assert k == 4 * i + k % 4;
    }
  }

  lemma BackAgain(b: bv8)
    ensures Bits(Octet(b)) == b
  {
  }

  lemma OctetAt(ws: seq<Word>, i: nat)
    requires i < |ws|
    ensures 4 * i + 3 < |Octets(ws)|
    ensures Octets(ws)[4 * i] == Octet(Byte(ws[i], 3)) && Octets(ws)[4 * i + 1] == Octet(Byte(ws[i], 2))
    ensures Octets(ws)[4 * i + 2] == Octet(Byte(ws[i], 1)) && Octets(ws)[4 * i + 3] == Octet(Byte(ws[i], 0))
  {
    hide Byte, Octet;
    assert 4 * i / 4 == i && (4 * i + 1) / 4 == i && (4 * i + 2) / 4 == i && (4 * i + 3) / 4 == i;
    assert 4 * i % 4 == 0 && (4 * i + 1) % 4 == 1 && (4 * i + 2) % 4 == 2 && (4 * i + 3) % 4 == 3;
  }

  /** The salt read from the bytes of four words is those words. */
  lemma SaltOfOctets(salt: Salt)
    ensures SaltOf(Octets(salt)) == salt
  {
    hide Byte, BigEndian, Octet, Bits, Octets;
    var read := SaltOf(Octets(salt));
    forall i | 0 <= i < 4 ensures read[i] == salt[i] {
      WordOfBytes(salt[i]);
      OctetAt(salt, i);
      BackAgain(Byte(salt[i], 3));
      BackAgain(Byte(salt[i], 2));
      BackAgain(Byte(salt[i], 1));
      BackAgain(Byte(salt[i], 0));
    }
  }

  lemma MagicBytes(i: nat, b1: bv8, b2: bv8, b3: bv8, b4: bv8)
    requires i < 6 && MAGIC[i] == BigEndian(b1, b2, b3, b4)
    ensures Octets(MAGIC)[4 * i..4 * i + 4] == [b1 as nat, b2 as nat, b3 as nat, b4 as nat]
  {
    hide Byte, BigEndian, Octets;
    OctetAt(MAGIC, i);
    BytesOfWord(b1, b2, b3, b4);
  }

  /** The magic words are, as bytes, the text of the paper. */
  lemma MagicText()
    ensures var text := "OrpheanBeholderScryDoubt";
            |Octets(MAGIC)| == |text| && forall i :: 0 <= i < |text| ==> Octets(MAGIC)[i] == text[i] as nat
  {
    hide Octets, Byte;
    MagicBytes(0, 0x4F, 0x72, 0x70, 0x68);
    MagicBytes(1, 0x65, 0x61, 0x6E, 0x42);
    MagicBytes(2, 0x65, 0x68, 0x6F, 0x6C);
    MagicBytes(3, 0x64, 0x65, 0x72, 0x53);
    MagicBytes(4, 0x63, 0x72, 0x79, 0x44);
    MagicBytes(5, 0x6F, 0x75, 0x62, 0x74);
    AllGroups(Octets(MAGIC), "OrpheanBeholderScryDoubt");
  }

  /** Equal in every group of four. */
  lemma AllGroups(b: seq<byte>, text: string)
    requires |b| == |text| == 24
    requires forall i :: 0 <= i < 6 ==> b[4 * i..4 * i + 4] == [text[4 * i] as nat, text[4 * i + 1] as nat,
                                                               text[4 * i + 2] as nat, text[4 * i + 3] as nat]
    ensures forall i :: 0 <= i < 24 ==> b[i] == text[i] as nat
  {
    forall i | 0 <= i < 24 ensures b[i] == text[i] as nat {
      var k, j := i / 4, i % 4;
      var group := [text[4 * k] as nat, text[4 * k + 1] as nat, text[4 * k + 2] as nat, text[4 * k + 3] as nat];
      assert b[4 * k..4 * k + 4] == group;
      assert i == 4 * k + j && b[i] == b[4 * k..4 * k + 4][j] && group[j] == text[4 * k + j] as nat;
    }
  }

  function Hash(init: Schedule, key: seq<bv8>, signBug: bool, cost: nat, salt: seq<byte>): (h: seq<byte>)
    requires |salt| == 16
    ensures |h| == 24
  {
    Octets(HashWords(Setup(init, cost, SaltOf(salt), KeyWords(key, signBug))))
  }

  // ---- Settings ---------------------------------------------------------------------------------------

  /** `$2a$` or `$2x$`, a cost from 00 to 31, `$`. */
  predicate PrefixOK(s: string)
    requires |s| >= 29
  {
    && s[0] == '$' && s[1] == '2' && (s[2] == 'a' || s[2] == 'x') && s[3] == '$'
    && '0' <= s[4] <= '3' && '0' <= s[5] <= '9' && !(s[4] == '3' && s[5] > '1') && s[6] == '$'
  }

  function Cost(s: string): nat
    requires |s| >= 29 && PrefixOK(s)
  {
    (s[4] as int - '0' as int) * 10 + (s[5] as int - '0' as int)
  }

  /** A setting that is accepted: its salt is 22 digits, which hold 16 bytes and four spare bits. */
  predicate Accepted(s: string) {
    |s| >= 29 && PrefixOK(s) && Cost(s) >= 4 && Decoded(s[7..], 16).Some?
  }

  function Prefix(mode: char, cost: nat): (s: string)
    requires cost < 100
    ensures |s| == 7
  {
    LettersAndDecimals();
    "$2" + [mode] + "$" + [DECIMAL[cost / 10], DECIMAL[cost % 10]] + "$"
  }

  lemma LettersAndDecimals()
    ensures |DECIMAL| == 10
  {
    DecimalsAre(0);
  }

  lemma PrefixChars(mode: char, cost: nat)
    requires cost < 100
    ensures var s := Prefix(mode, cost);
            && s[0] == '$' && s[1] == '2' && s[2] == mode && s[3] == '$' && s[6] == '$'
            && s[4] as int == '0' as int + cost / 10 && s[5] as int == '0' as int + cost % 10
  {
    DecimalsAre(cost / 10);
    DecimalsAre(cost % 10);
    hide DECIMAL;
  }

  /** The settings that are accepted: a mode, a cost from 04 to 31 and 22 digits, whatever follows. */
  lemma AcceptedExactly(s: string)
    ensures Accepted(s) <==>
            && |s| >= 29 && (forall i :: 7 <= i < 29 ==> s[i] in ALPHABET)
            && exists mode, cost :: mode in "ax" && 4 <= cost <= 31 && s[..7] == Prefix(mode, cost)
    ensures forall mode, cost :: Accepted(s) && 4 <= cost <= 31 && s[..7] == Prefix(mode, cost) ==> Cost(s) == cost
  {
    hide Prefix, ALPHABET, Atoi, BytesOf;
    forall mode, cost | |s| >= 29 && 4 <= cost <= 31 && s[..7] == Prefix(mode, cost)
      ensures PrefixOK(s) <==> mode in "ax"
      ensures PrefixOK(s) ==> Cost(s) == cost
    {
      PrefixChars(mode, cost);
      assert forall i :: 0 <= i < 7 ==> s[i] == s[..7][i];
    }
    if |s| >= 29 {
      SaltDigits(s);
      if PrefixOK(s) && Cost(s) >= 4 {
        PrefixChars(s[2], Cost(s));
        assert s[..7] == Prefix(s[2], Cost(s));
      }
    }
  }

  lemma SaltDigits(s: string)
    requires |s| >= 29
    ensures Decoded(s[7..], 16).Some? <==> forall i :: 7 <= i < 29 ==> s[i] in ALPHABET
  {
    hide Atoi, BytesOf, ALPHABET;
    forall i | 7 <= i < 29 ensures s[i] in ALPHABET <==> Atoi(s[7..][i - 7]).Some? {
      DigitsAreAlphabet(s[i], 0);
    }
  }

  function SaltBytes(s: string): (b: seq<byte>)
    requires Accepted(s)
    ensures |b| == 16
  {
    Decoded(s[7..], 16).value
  }

  /** The hash of a key under a setting: the setting with the spare bits of its last digit cleared,
      then 23 of the 24 bytes of the hash. */
  function Crypted(init: Schedule, key: seq<bv8>, setting: string): (h: Option<string>)
    ensures h.Some? <==> Accepted(setting)
  {
    hide *;
    if !Accepted(setting) then None
    else
      LastSaltDigit(setting);
      var hash := Hash(init, key, setting[2] == 'x', Cost(setting), SaltBytes(setting));
      Some(setting[..28] + [Itoa(Atoi(setting[28]).value / 16 * 16)] + Encoded(hash[..23]))
  }

  lemma LastSaltDigit(setting: string)
    requires Accepted(setting)
    ensures |setting| >= 29 && PrefixOK(setting) && Atoi(setting[28]).Some?
  {
    hide PrefixOK, Cost;
    assert setting[7..][21] == setting[28];
  }

  /** The digits of the salt in the result are those of its sixteen bytes. */
  lemma CryptedForm(init: Schedule, key: seq<bv8>, setting: string)
    requires Accepted(setting)
    ensures Crypted(init, key, setting).value ==
            setting[..7] + Encoded(SaltBytes(setting)) +
            Encoded(Hash(init, key, setting[2] == 'x', Cost(setting), SaltBytes(setting))[..23])
  {
    hide Hash, Itoa, Atoi, DigitsOf, BytesOf;
    var s := setting[7..];
    var ds := Values(s, 22).value;
    LastSaltDigit(setting);
    DecodeThenEncode(s, 16);
    SameDigits(s, 16);
    assert s[21] == setting[28];
    assert Encoded(SaltBytes(setting)) == s[..21] + [Itoa(ds[21] / 16 * 16)];
    assert setting[..28] == setting[..7] + s[..21];
  }

  /** Settings with one prefix and one salt give one result, whatever spare bits or further text
      they carry. */
  lemma SameSaltSameHash(init: Schedule, key: seq<bv8>, s: string, s': string)
    requires Accepted(s) && Accepted(s') && s[..7] == s'[..7] && SaltBytes(s) == SaltBytes(s')
    ensures Crypted(init, key, s) == Crypted(init, key, s')
  {
    hide Hash, Crypted, SaltBytes;
    CryptedForm(init, key, s);
    CryptedForm(init, key, s');
    assert forall i :: 0 <= i < 7 ==> s[i] == s[..7][i] && s'[i] == s'[..7][i];
  }

  /** Checking a password: hashing the key again under the hash itself gives the hash. */
  lemma VerificationIsFixpoint(init: Schedule, key: seq<bv8>, setting: string)
    requires Crypted(init, key, setting).Some?
    ensures var h := Crypted(init, key, setting).value; |h| == 60 && Crypted(init, key, h) == Some(h)
  {
    hide Hash, Encoded, Decoded, Crypted;
    var h := Crypted(init, key, setting).value;
    CryptedForm(init, key, setting);
    var digits := Encoded(SaltBytes(setting));
    var hash := Encoded(Hash(init, key, setting[2] == 'x', Cost(setting), SaltBytes(setting))[..23]);
    assert h[7..] == digits + hash;
    EncodeThenDecode(SaltBytes(setting), hash);
    assert forall i :: 0 <= i < 7 ==> h[i] == setting[i];
    assert h[..7] == setting[..7];
    SameSaltSameHash(init, key, setting, h);
  }

  // ---- Generated salts ---------------------------------------------------------------------------------

  function Generated(rounds: nat, rand: seq<byte>): (s: string)
    requires rounds < 100 && |rand| == 16
    ensures |s| == 29
  {
    "$2a$" + [('0' as int + rounds / 10) as char, ('0' as int + rounds % 10) as char] + "$" + Encoded(rand)
  }

  /** Every generated salt is accepted, with the cost and the bytes it was generated from. */
  lemma GeneratedIsAccepted(rounds: nat, rand: seq<byte>)
    requires 4 <= rounds <= 31 && |rand| == 16
    ensures var s := Generated(rounds, rand); Accepted(s) && Cost(s) == rounds && SaltBytes(s) == rand
  {
    hide Encoded, Decoded;
    var s := Generated(rounds, rand);
    EncodeThenDecode(rand, []);
    assert s[7..] == Encoded(rand) + [];
    assert s[4] == ('0' as int + rounds / 10) as char && s[5] == ('0' as int + rounds % 10) as char;
  }

  method GenSalt(rounds: nat, rand: array<byte>, output: array<char>) returns (ok: bool)
    requires rand.Length == 16 && output.Length >= 30
    modifies output
    ensures ok <==> 4 <= rounds <= 31
    ensures ok ==> output[..29] == Generated(rounds, rand[..]) && output[29] == '\0'
    ensures !ok ==> output[0] == '\0'
  {
    hide Encoded;
    output[0] := '\0';
    if !(rounds >= 4 && rounds <= 31) {
      return false;
    }
    output[0] := '$';
    output[1] := '2';
    output[2] := 'a';
    output[3] := '$';
    output[4] := ('0' as int + rounds / 10) as char;
    output[5] := ('0' as int + rounds % 10) as char;
    output[6] := '$';
    ghost var prefix := output[..7];
    Encode(output, 7, rand, 16);
    assert output[..7] == prefix && rand[..16] == rand[..];
    output[7 + 22] := '\0';
    assert output[..29] == output[..7] + output[7..29];
    ok := true;
  }

  // ---- The whole computation -----------------------------------------------------------------------------

  lemma CostBound(c: nat)
    ensures Pow2(c) < 16 <==> c < 4
  {
    if c >= 4 {
      assert Pow2(4) == 16;
      Pow2Grows(4, c);
    }
  }

  lemma RepeatedStep(s: Schedule, n: nat, l: Word, r: Word, a: Word, b: Word)
    requires n > 0 && (a, b) == Encrypted(s, l, r)
    ensures Repeated(s, n, l, r) == Repeated(s, n - 1, a, b)
  {
    hide Encrypted;
  }

  lemma NoneLeft(s: Schedule, l: Word, r: Word)
    ensures Repeated(s, 0, l, r) == (l, r)
  {
  }

  /** The last loop: 64 encryptions of each pair of magic words. */
  method FinalWords(ctx: Context) returns (words: seq<Word>)
    requires ctx.Valid()
    ensures words == HashWords(ctx.Value())
  {
    hide Encrypted, Context.Value, Repeated;
    ghost var v := ctx.Value();
    var out := new Word[6](_ => ZERO);
    var i := 0;
    while i < 6
      invariant i <= 6 && i % 2 == 0 && ctx.Value() == v
      invariant i >= 2 ==> (out[0], out[1]) == Repeated(v, 64, MAGIC[0], MAGIC[1])
      invariant i >= 4 ==> (out[2], out[3]) == Repeated(v, 64, MAGIC[2], MAGIC[3])
      invariant i >= 6 ==> (out[4], out[5]) == Repeated(v, 64, MAGIC[4], MAGIC[5])
    {
      var l, r := MAGIC[i], MAGIC[i + 1];
      var count: nat := 64;
      while count > 0
        modifies {}
        invariant Repeated(v, count, l, r) == Repeated(v, 64, MAGIC[i], MAGIC[i + 1])
      {
        ghost var l0, r0 := l, r;
        l, r := ctx.Encrypt(l, r);
        RepeatedStep(v, count, l0, r0, l, r);
        count := count - 1;
      }
      NoneLeft(v, l, r);
      out[i] := l;
      out[i + 1] := r;
      i := i + 2;
    }
    words := out[..];
  }

  /** The setup and the final encryptions. */
  method HashOf(init: Schedule, key: seq<bv8>, signBug: bool, count: nat, salt: Salt) returns (hash: seq<byte>)
    requires 0 !in key && count > 0
    ensures hash ==
            Octets(HashWords(Rounds(ExpandKey(init, salt, KeyWords(key, signBug)), salt, KeyWords(key,
                signBug), count)))
  {
    hide Blocks, WithKey, Rounds, KeyWords, Octets, HashWords, Context.Value;
    var expanded, subkeys := SetKey(key, init, signBug);
    var ctx := new Context(subkeys + init[SUBKEYS..]);
    StartState(init, expanded, subkeys);
    ctx.SaltedBody(salt);
    ctx.Expensive(count, salt, expanded);
    var words := FinalWords(ctx);
    hash := Octets(words);
  }

  lemma StartState(init: Schedule, key: Key, subkeys: Key)
    requires subkeys == WithKey(init, key)[..SUBKEYS]
    ensures subkeys + init[SUBKEYS..] == WithKey(init, key)
  {
    hide Xor, KeyAt;
    assert WithKey(init, key)[SUBKEYS..] == init[SUBKEYS..];
  }

  /** The result as text, up to and including its NUL. */
  method WriteHash(setting: string, hash: seq<byte>, output: array<char>)
    requires |hash| == 24 && |setting| >= 29 && Atoi(setting[28]).Some? && output.Length >= 61
    modifies output
    ensures output[..60] == setting[..28] + [Itoa(Atoi(setting[28]).value / 16 * 16)] + Encoded(hash[..23])
    ensures output[60] == '\0'
  {
    hide Encoded, Itoa, Atoi;
    var i := 0;
    while i < 7 + 22 - 1
      invariant i <= 28 && output[..i] == setting[..i]
    {
      output[i] := setting[i];
      i := i + 1;
    }
    output[7 + 22 - 1] := Itoa(Atoi(setting[7 + 22 - 1]).value / 16 * 16);
    ghost var head := output[..29];
    var bytes := new byte[24](i requires 0 <= i < 24 => hash[i]);
    assert bytes[..23] == hash[..23];
    Encode(output, 29, bytes, 23);
    assert output[..29] == head;
    output[7 + 22 + 31] := '\0';
    assert output[..60] == output[..29] + output[29..60];
  }

  /** `CryptoKDFCryptBlowFish`, with the initial tables as a parameter. */
  method Crypt(init: Schedule, key: seq<bv8>, setting: string, output: array<char>, size: nat) returns (ok: bool)
    requires 0 !in key && size <= output.Length
    modifies output
    ensures ok <==> size >= 61 && Accepted(setting)
    ensures ok ==> Some(output[..60]) == Crypted(init, key, setting) && output[60] == '\0'
    ensures !ok ==> output[..] == old(output[..])
  {
    hide Decoded, Pow2, Octets, HashWords, Rounds, ExpandKey, KeyWords, SaltOf, Encoded, Itoa, Atoi;
    if size < 7 + 22 + 31 + 1 {
      return false;
    }
    if |setting| < 29 {
      return false;
    }
    if !PrefixOK(setting) {
      return false;
    }
    var count := Pow2(Cost(setting));
    CostBound(Cost(setting));
    if count < 16 {
      return false;
    }
    var salt := new byte[16];
    var decoded := Decode(salt, setting[7..], 16);
    if !decoded {
      return false;
    }
    assert salt[..16] == salt[..];
    LastSaltDigit(setting);
    var hash := HashOf(init, key, setting[2] == 'x', count, SaltOf(salt[..]));
    WriteHash(setting, hash, output);
    ok := true;
  }
}
