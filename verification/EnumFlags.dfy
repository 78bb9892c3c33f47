/** Enumeration flags as text: how a set of flags is written, and how the expression evaluator reads
    it back. */
module EnumFlags {
  import opened BitNumbers
  import opened Chars
  import opened Wrappers
  import opened Folding
  import opened Lexing
  import P = Parsing
  import G = Grammar

  // ---- Bit sets ----------------------------------------------------------------------------------

  function Or(a: nat, b: nat): nat {
    if a == 0 then b else if b == 0 then a
    else 2 * Or(a / 2, b / 2) + if a % 2 == 1 || b % 2 == 1 then 1 else 0
  }

  /** The bits of `b` that are in `a`. */
  function And(a: nat, b: nat): (r: nat)
    ensures r <= b && r <= a
  {
    if a == 0 || b == 0 then 0
    else 2 * And(a / 2, b / 2) + if a % 2 == 1 && b % 2 == 1 then 1 else 0
  }

  /** `a & ~b`. */
  function Without(a: nat, b: nat): (r: nat)
    ensures r <= a
  {
    if a == 0 || b == 0 then a
    else 2 * Without(a / 2, b / 2) + if a % 2 == 1 && b % 2 == 0 then 1 else 0
  }

  /** Bit by bit. */
  lemma {:induction false} BitOfOr(a: nat, b: nat, i: nat)
    ensures Bit(Or(a, b), i) <==> Bit(a, i) || Bit(b, i)
  {
    BitsOfZero(i);
    if i > 0 && a > 0 && b > 0 {
      BitOfOr(a / 2, b / 2, i - 1);
    }
  }

  lemma {:induction false} BitOfAnd(a: nat, b: nat, i: nat)
    ensures Bit(And(a, b), i) <==> Bit(a, i) && Bit(b, i)
  {
    BitsOfZero(i);
    if i > 0 && a > 0 && b > 0 {
      BitOfAnd(a / 2, b / 2, i - 1);
    }
  }

  lemma {:induction false} BitOfWithout(a: nat, b: nat, i: nat)
    ensures Bit(Without(a, b), i) <==> Bit(a, i) && !Bit(b, i)
  {
    BitsOfZero(i);
    if i > 0 && a > 0 && b > 0 {
      WithoutHalves(a, b);
      BitOfWithout(a / 2, b / 2, i - 1);
      hide Without;
    }
  }

  lemma WithoutHalves(a: nat, b: nat)
    requires a > 0 && b > 0
    ensures Without(a, b) / 2 == Without(a / 2, b / 2)
    ensures Without(a, b) % 2 == 1 <==> a % 2 == 1 && b % 2 == 0
  {
  }

  lemma {:induction false} OrAssociative(a: nat, b: nat, c: nat)
    ensures Or(Or(a, b), c) == Or(a, Or(b, c))
  {
    if a > 0 && b > 0 && c > 0 {
      OrAssociative(a / 2, b / 2, c / 2);
      OrHalves(a, b);
      OrHalves(b, c);
    }
  }

  lemma OrHalves(a: nat, b: nat)
    requires a > 0 && b > 0
    ensures Or(a, b) > 0 && Or(a, b) / 2 == Or(a / 2, b / 2)
    ensures Or(a, b) % 2 == if a % 2 == 1 || b % 2 == 1 then 1 else 0
  {
  }

  /** Taking a subset of the bits out and putting it back. */
  lemma {:induction false} OrWithout(v: nat, x: nat)
    requires And(v, x) == x
    ensures Or(x, Without(v, x)) == v
  {
    if v > 0 && x > 0 {
      OrWithout(v / 2, x / 2);
    }
  }

  lemma {:induction false} OrBound(a: nat, b: nat, n: nat)
    requires a < Pow2(n) && b < Pow2(n)
    ensures Or(a, b) < Pow2(n)
  {
    if n > 0 && a > 0 && b > 0 {
      OrBound(a / 2, b / 2, n - 1);
    }
  }

  // ---- Writing -----------------------------------------------------------------------------------

  /** `niFlagTest`. */
  predicate HasFlag(v: nat, x: nat) {
    x != 0 && And(v, x) == x
  }

  /** A flag is there if it has a bit and all of its bits are. */
  lemma HasFlagMeans(v: nat, x: nat)
    ensures HasFlag(v, x) <==> x != 0 && forall i :: Bit(x, i) ==> Bit(v, i)
  {
    AllBitsIn(v, x);
  }

  lemma {:induction false} AllBitsIn(v: nat, x: nat)
    ensures And(v, x) == x <==> forall i :: Bit(x, i) ==> Bit(v, i)
  {
    if And(v, x) == x {
      forall i | Bit(x, i) ensures Bit(v, i) {
        BitOfAnd(v, x, i);
      }
    } else {
      var i := MissingBit(v, x);
    }
  }

  lemma {:induction false} MissingBit(v: nat, x: nat) returns (i: nat)
    requires And(v, x) != x
    ensures Bit(x, i) && !Bit(v, i)
    decreases x
  {
    if x % 2 == 1 && v % 2 == 0 {
      i := 0;
    } else if v == 0 {
      i := MissingBit(0, x / 2);
      BitsOfZero(i);
      i := i + 1;
    } else {
      i := MissingBit(v / 2, x / 2);
      i := i + 1;
    }
  }

  /** What is written for a value, piece by piece: a flag by its name, or what is left as a number. */
  datatype Part = Flag(k: nat) | Left(n: nat)

  /** The parts from enumeration value `k` on, for the bits that are left. */
  function PartsFrom(values: seq<EnumValue>, k: nat, v: nat): seq<Part>
    requires k <= |values|
    decreases |values| - k
  {
    if k == |values| then if v == 0 then [] else [Left(v)]
    else if HasFlag(v, values[k].value) then [Flag(k)] + PartsFrom(values, k + 1, Without(v, values[k].value))
    else PartsFrom(values, k + 1, v)
  }

  function HexChar(d: nat): char
    requires d < 16
  {
    if d < 10 then ('0' as int + d) as char else ('a' as int + (d - 10)) as char
  }

  const LOWER_HEX := "0123456789abcdef"

  const UPPER_HEX := "0123456789ABCDEF"

  /** Digits are written in lower case and read in either. */
  lemma HexChars(d: nat)
    requires d < 16
    ensures |LOWER_HEX| == |UPPER_HEX| == 16
    ensures HexChar(d) as int == LOWER_HEX[d] as int
    ensures HexDigit(LOWER_HEX[d]) == d && HexDigit(UPPER_HEX[d]) == d
  {
  }

  /** `digits` hexadecimal digits of `n`. */
  function Hex(n: nat, digits: nat): (s: string)
    ensures |s| == digits
  {
    if digits == 0 then "" else Hex(n / 16, digits - 1) + [HexChar(n % 16)]
  }

  predicate PartOK(values: seq<EnumValue>, p: Part) {
    p.Flag? ==> p.k < |values|
  }

  function WordOf(values: seq<EnumValue>, p: Part): string
    requires PartOK(values, p)
  {
    match p
    case Flag(k) => values[k].name
    case Left(n) => "0x" + Hex(n, 8)
  }

  /** The number a part stands for. */
  function ValueOf(values: seq<EnumValue>, p: Part): nat
    requires PartOK(values, p)
  {
    match p
    case Flag(k) => values[k].value
    case Left(n) => n
  }

  lemma {:induction false} PartsOK(values: seq<EnumValue>, k: nat, v: nat)
    requires k <= |values|
    ensures forall p :: p in PartsFrom(values, k, v) ==> PartOK(values, p) && ValueOf(values, p) <= v
    ensures v == 0 ==> PartsFrom(values, k, v) == []
    decreases |values| - k
  {
    if k < |values| {
      PartsOK(values, k + 1, v);
      PartsOK(values, k + 1, Without(v, values[k].value));
    }
  }

  function Words(values: seq<EnumValue>, parts: seq<Part>): (ws: seq<string>)
    requires forall p :: p in parts ==> PartOK(values, p)
    ensures |ws| == |parts|
  {
    seq(|parts|, i requires 0 <= i < |parts| => WordOf(values, parts[i]))
  }

  function Joined(words: seq<string>): string {
    if words == [] then "" else if |words| == 1 then words[0] else words[0] + "|" + Joined(words[1..])
  }

  function FlagsText(def: EnumDef, v: nat): string {
    PartsOK(def.values, 0, v);
    Joined(Words(def.values, PartsFrom(def.values, 0, v)))
  }

  /** `GetEnumFlagsString` for the context's default enumeration. */
  method GetEnumFlagsString(def: EnumDef, value: nat) returns (text: string)
    requires forall i :: 0 <= i < |def.values| ==> def.values[i].name != ""
    ensures text == FlagsText(def, value)
  {
    hide HasFlag, Hex, Joined;
    text := "";
    var v := value;
    var k := 0;
    ghost var words: seq<string> := [];
    ghost var all := PartsFrom(def.values, 0, value);
    PartsOK(def.values, 0, value);
    JoinedNone();
    while k < |def.values|
      invariant k <= |def.values| && (text == "" <==> words == [])
      invariant text == Joined(words)
      invariant forall p :: p in PartsFrom(def.values, k, v) ==> PartOK(def.values, p)
      invariant words + Words(def.values, PartsFrom(def.values, k, v)) == Words(def.values, all)
    {
      var x := def.values[k].value;
      if HasFlag(v, x) {
        PartsOK(def.values, k + 1, Without(v, x));
        FirstWord(def.values, Flag(k), PartsFrom(def.values, k + 1, Without(v, x)), words);
        JoinedSnoc(words, def.values[k].name);
        if text != "" {
          text := text + "|";
        }
        text := text + def.values[k].name;
        words := words + [def.values[k].name];
        v := Without(v, x);
      }
      k := k + 1;
    }
    if v != 0 {
      FirstWord(def.values, Left(v), [], words);
      JoinedSnoc(words, "0x" + Hex(v, 8));
      if text != "" {
        text := text + "|";
      }
      text := text + ("0x" + Hex(v, 8));
      assert [Left(v)] + [] == [Left(v)] && Words(def.values, []) == [];
      assert words + ["0x" + Hex(v, 8)] + [] == words + ["0x" + Hex(v, 8)];
    } else {
      assert Words(def.values, []) == [] && words + [] == words;
    }
  }

  lemma JoinedNone()
    ensures Joined([]) == ""
  {
  }

  lemma FirstWord(values: seq<EnumValue>, p: Part, parts: seq<Part>, words: seq<string>)
    requires PartOK(values, p) && forall q :: q in parts ==> PartOK(values, q)
    ensures words + Words(values, [p] + parts) == words + [WordOf(values, p)] + Words(values, parts)
  {
    hide WordOf;
    assert Words(values, [p] + parts) == [WordOf(values, p)] + Words(values, parts);
  }

  lemma {:induction false} JoinedSnoc(words: seq<string>, word: string)
    ensures Joined(words + [word]) == (if words == [] then "" else Joined(words) + "|") + word
    decreases |words|
  {
    if words == [] {
      assert words + [word] == [word];
    } else {
      assert (words + [word])[1..] == words[1..] + [word];
      JoinedSnoc(words[1..], word);
      if |words| == 1 {
        assert words[1..] + [word] == [word];
      } else {
        var a, b := words[0], Joined(words[1..]);
        assert a + "|" + (b + "|" + word) == (a + "|" + b + "|") + word;
      }
    }
  }

  // ---- The bits of the parts ---------------------------------------------------------------------

  /** All bits of the first `n` numbers, from the left. */
  function Total(vals: seq<nat>, n: nat): nat
    requires n <= |vals|
  {
    if n == 0 then 0 else Or(Total(vals, n - 1), vals[n - 1])
  }

  function Values(values: seq<EnumValue>, parts: seq<Part>): (vs: seq<nat>)
    requires forall p :: p in parts ==> PartOK(values, p)
    ensures |vs| == |parts|
  {
    seq(|parts|, i requires 0 <= i < |parts| => ValueOf(values, parts[i]))
  }

  function Fold(acc: nat, vals: seq<nat>): nat
    decreases |vals|
  {
    if vals == [] then acc else Fold(Or(acc, vals[0]), vals[1..])
  }

  lemma {:induction false} FoldIsTotal(vals: seq<nat>, i: nat)
    requires i <= |vals|
    ensures Fold(Total(vals, i), vals[i..]) == Total(vals, |vals|)
    decreases |vals| - i
  {
    if i < |vals| {
      FoldIsTotal(vals, i + 1);
      assert vals[i..][1..] == vals[i + 1..];
    }
  }

  /** The parts written for a value hold its bits, all of them and no others. */
  lemma {:induction false} PartsHoldBits(values: seq<EnumValue>, k: nat, v: nat, acc: nat)
    requires k <= |values| && forall p :: p in PartsFrom(values, k, v) ==> PartOK(values, p)
    ensures Fold(acc, Values(values, PartsFrom(values, k, v))) == Or(acc, v)
    decreases |values| - k
  {
    hide And, Without;
    var parts := PartsFrom(values, k, v);
    if k == |values| {
      if v != 0 {
        assert Values(values, parts) == [v] && [v][1..] == [];
      }
    } else if HasFlag(v, values[k].value) {
      var x := values[k].value;
      var rest := PartsFrom(values, k + 1, Without(v, x));
      PartsOK(values, k + 1, Without(v, x));
      PartsHoldBits(values, k + 1, Without(v, x), Or(acc, x));
      assert Values(values, parts)[1..] == Values(values, rest);
      OrWithout(v, x);
      OrAssociative(acc, x, Without(v, x));
    } else {
      PartsHoldBits(values, k + 1, v, acc);
    }
  }

  lemma PartsTotal(values: seq<EnumValue>, v: nat)
    ensures forall p :: p in PartsFrom(values, 0, v) ==> PartOK(values, p)
    ensures var vals := Values(values, PartsFrom(values, 0, v)); Total(vals, |vals|) == v
  {
    PartsOK(values, 0, v);
    PartsHoldBits(values, 0, v, 0);
    var vals := Values(values, PartsFrom(values, 0, v));
    FoldIsTotal(vals, 0);
    assert vals[0..] == vals;
  }

  // ---- Reading: words ------------------------------------------------------------------------------

  predicate IsWordChar(c: char) {
    IsDigit(c) || 'a' <= c <= 'z' || 'A' <= c <= 'Z' || c == '_'
  }

  predicate IsWord(s: string) {
    s != "" && forall i :: 0 <= i < |s| ==> IsWordChar(s[i])
  }

  /** Outside strings, URLs and escapes. */
  predicate Clean(s: LexState) {
    !s.backslash && s.quote == NUL && !s.url
  }

  lemma WordStep(state: LexState, c: char, c2: char)
    requires Clean(state) && IsWordChar(c)
    ensures CharStep(state, c, c2) == (CharType.Normal, state.(prev := c)) && Clean(state.(prev := c))
  {
  }

  lemma {:induction false} LexWord(state: LexState, word: string, rest: string,
      current: string) returns (next: LexState)
    requires Clean(state) && forall i :: 0 <= i < |word| ==> IsWordChar(word[i])
    ensures Clean(next) && Lexed(state, word + rest, current) == Lexed(next, rest, current + word)
    decreases |word|
  {
    hide CharStep;
    next := state;
    if word == "" {
      assert word + rest == rest && current + word == current;
    } else {
      WordStep(state, word[0], if |word + rest| > 1 then (word + rest)[1] else NUL);
      assert (word + rest)[1..] == word[1..] + rest;
      next := LexWord(state.(prev := word[0]), word[1..], rest, current + [word[0]]);
      assert current + [word[0]] + word[1..] == current + word;
    }
  }

  lemma BarStep(state: LexState, rest: string, current: string)
    requires Clean(state) && rest != "" && rest[0] != '|'
    ensures Clean(state.(prev := '|'))
    ensures Lexed(state, "|" + rest, current) == NonEmpty(current) + ["|"] + Lexed(state.(prev := '|'), rest, "")
  {
    assert ("|" + rest)[1..] == rest;
  }

  function Spaced(words: seq<string>): (ws: seq<string>)
    requires words != []
    ensures |ws| == 2 * |words| - 1
    ensures forall j :: 0 <= j < |ws| ==> ws[j] == if j % 2 == 0 then words[j / 2] else "|"
  {
    if |words| == 1 then words else [words[0], "|"] + Spaced(words[1..])
  }

  lemma {:induction false} JoinedStart(words: seq<string>)
    requires words != [] && forall i :: 0 <= i < |words| ==> IsWord(words[i])
    ensures Joined(words) != "" && IsWordChar(Joined(words)[0])
  {
    assert IsWord(words[0]);
  }

  /** The words of a joined text are its words and the bars between them. */
  lemma {:induction false} LexJoined(state: LexState, words: seq<string>)
    requires Clean(state) && words != [] && forall i :: 0 <= i < |words| ==> IsWord(words[i])
    ensures Lexed(state, Joined(words), "") == Spaced(words)
    decreases |words|
  {
    hide CharStep, IsWordChar;
    assert IsWord(words[0]) && "" + words[0] == words[0];
    if |words| == 1 {
      var next := LexWord(state, words[0], "", "");
      assert words[0] + "" == words[0];
    } else {
      var rest := Joined(words[1..]);
      JoinedStart(words[1..]);
      BarIsNoWord();
      assert Joined(words) == words[0] + ("|" + rest);
      var next := LexWord(state, words[0], "|" + rest, "");
      BarStep(next, rest, words[0]);
      LexJoined(next.(prev := '|'), words[1..]);
      assert [words[0]] + ["|"] == [words[0], "|"];
    }
  }

  lemma BarIsNoWord()
    ensures !IsWordChar('|')
  {
  }

  // ---- Reading: tokens -----------------------------------------------------------------------------

  /** The numbers and the bars between them. */
  function NumberTokens(ctx: Context, vals: seq<nat>): (ts: seq<Token>)
    requires vals != []
    ensures |ts| == 2 * |vals| - 1
    ensures forall j :: 0 <= j < |ts| ==> ts[j] == if j % 2 == 0 then Number(ctx.ofInt(vals[j / 2])) else BinaryOp("|")
  {
    if |vals| == 1 then [Number(ctx.ofInt(vals[0]))]
    else [Number(ctx.ofInt(vals[0])), BinaryOp("|")] + NumberTokens(ctx, vals[1..])
  }

  /** Before a bar or the end, the word reads as the number. */
  ghost predicate Reads(ctx: Context, word: string, x: nat) {
    forall words, i, before: seq<Token> ::
      0 <= i < |words| && words[i] == word && (i + 1 < |words| ==> words[i + 1] == "|") ==>
        TokenAt(ctx, words, i, before) == Some((Number(ctx.ofInt(x)), i + 1))
  }

  /** Before a bar or the end, the word is an error. */
  ghost predicate Blocks(ctx: Context, word: string) {
    forall words, i, before: seq<Token> ::
      0 <= i < |words| && words[i] == word && (i + 1 < |words| ==> words[i + 1] == "|") ==>
        TokenAt(ctx, words, i, before) == None
  }

  lemma BarReads(ctx: Context, words: seq<string>, i: nat, before: seq<Token>)
    requires "|" in ctx.binary && i < |words| && words[i] == "|"
    requires before != [] && before[|before| - 1].Number?
    ensures TokenAt(ctx, words, i, before) == Some((BinaryOp("|"), i + 1))
  {
  }

  lemma SpacedAt(words: seq<string>, j: nat)
    requires j < |words|
    ensures 2 * j < |Spaced(words)| && Spaced(words)[2 * j] == words[j]
    ensures j + 1 < |words| ==> 2 * j + 1 < |Spaced(words)| && Spaced(words)[2 * j + 1] == "|"
  {
    assert 2 * j / 2 == j;
  }

  /** The tokens of the `j`-th number and of the bar after it. */
  lemma NumberTokenIs(ctx: Context, vals: seq<nat>, j: nat)
    requires j < |vals|
    ensures 2 * j < |NumberTokens(ctx, vals)| && NumberTokens(ctx, vals)[2 * j] == Number(ctx.ofInt(vals[j]))
    ensures j + 1 < |vals| ==>
      2 * j + 1 < |NumberTokens(ctx, vals)| && NumberTokens(ctx, vals)[2 * j + 1] == BinaryOp("|")
  {
    assert 2 * j / 2 == j;
  }

  lemma NumberTokensAt(ctx: Context, vals: seq<nat>, j: nat)
    requires j < |vals|
    ensures var ts, number := NumberTokens(ctx, vals), Number(ctx.ofInt(vals[j]));
            && (j + 1 < |vals| ==> ts[..2 * j] + [number] + [BinaryOp("|")] == ts[..2 * j + 2])
            && (j + 1 == |vals| ==> ts[..2 * j] + [number] == ts)
  {
    NumberTokenIs(ctx, vals, j);
    var ts := NumberTokens(ctx, vals);
    assert |ts| == 2 * |vals| - 1;
    Extended(ts, 2 * j);
  }

  lemma Extended<T>(s: seq<T>, i: nat)
    requires i < |s|
    ensures s[..i] + [s[i]] == s[..i + 1] && (i + 1 == |s| ==> s[..i + 1] == s)
    ensures i + 1 < |s| ==> s[..i] + [s[i]] + [s[i + 1]] == s[..i + 2]
  {
  }

  lemma NumberStep(ctx: Context, words: seq<string>, i: nat, before: seq<Token>, x: nat)
    requires i < |words| && Reads(ctx, words[i], x) && (i + 1 < |words| ==> words[i + 1] == "|") && "|" in ctx.binary
    ensures var now := before + [Number(ctx.ofInt(x))];
            && (i + 1 == |words| ==> TokensFrom(ctx, words, i, before) == Some(now))
            && (i + 1 < |words| ==>
                  TokensFrom(ctx, words, i, before) == TokensFrom(ctx, words, i + 2, now + [BinaryOp("|")]))
  {
    hide TokenAt;
    assert TokenAt(ctx, words, i, before) == Some((Number(ctx.ofInt(x)), i + 1));
    if i + 1 < |words| {
      BarReads(ctx, words, i + 1, before + [Number(ctx.ofInt(x))]);
    }
  }

  lemma {:induction false} TokensOfSpaced(ctx: Context, words: seq<string>, vals: seq<nat>, j: nat)
    requires "|" in ctx.binary && words != [] && |vals| == |words| && j < |words|
    requires forall i :: 0 <= i < |words| ==> Reads(ctx, words[i], vals[i])
    ensures TokensFrom(ctx, Spaced(words), 2 * j, NumberTokens(ctx, vals)[..2 * j]) == Some(NumberTokens(ctx, vals))
    decreases |words| - j
  {
    hide TokensFrom, Reads;
    SpacedAt(words, j);
    NumberTokensAt(ctx, vals, j);
    var ws, before := Spaced(words), NumberTokens(ctx, vals)[..2 * j];
    assert |ws| == 2 * |words| - 1;
    NumberStep(ctx, ws, 2 * j, before, vals[j]);
    if j + 1 < |words| {
      TokensOfSpaced(ctx, words, vals, j + 1);
    }
  }

  // ---- Reading: names and hexadecimal numbers ------------------------------------------------------

  /** The default enumeration, its names being distinct identifiers. */
  predicate EnumOK(ctx: Context, def: EnumDef) {
    && ctx.defaultEnum == Some(def)
    && (forall i :: 0 <= i < |def.values| ==> IsWord(def.values[i].name) && !IsDigit(def.values[i].name[0]))
    && (forall i, j :: 0 <= i < j < |def.values| ==> def.values[i].name != def.values[j].name)
  }

  /** The name is taken for that of an enumeration, which must be followed by a dot. */
  predicate Shadowed(ctx: Context, name: string) {
    |name| >= 2 && name[0] == 'e' && 'A' <= name[1] <= 'Z' && name in ctx.enums
  }

  lemma {:induction false} NoUrl(word: string)
    requires forall i :: 0 <= i < |word| ==> IsWordChar(word[i])
    ensures !ContainsUrl(word)
    decreases |word|
  {
    if |word| >= 3 {
      assert word[..3][0] == word[0] && IsWordChar(word[0]);
      NoUrl(word[1..]);
    }
  }

  lemma WordIsNoSymbol(word: string)
    requires IsWord(word)
    ensures word !in OPERATORS && word != "(" && word != "[" && word != ")" && word != "]" && word != "," && word != "."
    ensures !IsQuote(word[0]) && word[0] != '.' && word[0] != '-'
  {
    assert IsWordChar(word[0]);
  }

  lemma NameReads(ctx: Context, def: EnumDef, k: nat)
    requires EnumOK(ctx, def) && k < |def.values|
    ensures !Shadowed(ctx, def.values[k].name) ==> Reads(ctx, def.values[k].name, def.values[k].value)
    ensures Shadowed(ctx, def.values[k].name) ==> Blocks(ctx, def.values[k].name)
  {
    var word := def.values[k].name;
    NoUrl(word);
    WordIsNoSymbol(word);
    assert ValueIndex(def.values, word) == k;
    assert ReadNumber(ctx, word).None?;
    hide ReadNumber, ContainsUrl, IsQuote, IsWord, EnumOK;
  }

  lemma HexCharReads(d: nat)
    requires d < 16
    ensures HexDigit(HexChar(d)) == d && IsWordChar(HexChar(d))
  {
  }

  lemma {:induction false} HexReads(n: nat, k: nat)
    ensures HexDigits(Hex(n, k)) == Hex(n, k)
    ensures forall i :: 0 <= i < k ==> IsWordChar(Hex(n, k)[i])
    ensures n < Power16(k) ==> HexValue(Hex(n, k), 0) == n
    decreases k
  {
    hide HexChar, HexDigit, IsWordChar;
    if k > 0 {
      HexCharReads(n % 16);
      HexReads(n / 16, k - 1);
      HexDigitsSnoc(Hex(n / 16, k - 1), HexChar(n % 16));
      HexValueSnoc(Hex(n / 16, k - 1), HexChar(n % 16), 0);
    }
  }

  function Power16(k: nat): nat {
    if k == 0 then 1 else 16 * Power16(k - 1)
  }

  lemma {:induction false} HexDigitsSnoc(s: string, c: char)
    requires HexDigits(s) == s && HexDigit(c) < 16
    ensures HexDigits(s + [c]) == s + [c]
  {
    if s == "" {
      assert (s + [c])[1..] == "";
    } else {
      assert (s + [c])[1..] == s[1..] + [c];
      assert HexDigits(s)[1..] == HexDigits(s[1..]);
      HexDigitsSnoc(s[1..], c);
    }
  }

  lemma {:induction false} HexValueSnoc(s: string, c: char, high: nat)
    ensures HexValue(s + [c], high) == 16 * HexValue(s, high) + HexDigit(c)
    decreases |s|
  {
    if s == "" {
      assert (s + [c])[1..] == "";
    } else {
      assert (s + [c])[1..] == s[1..] + [c];
      HexValueSnoc(s[1..], c, 16 * high + HexDigit(s[0]));
    }
  }

  /** The number that hexadecimal digits write. */
  function HexNumber(s: string): nat {
    if s == "" then 0 else 16 * HexNumber(s[..|s| - 1]) + HexDigit(s[|s| - 1])
  }

  lemma {:induction false} HexValueIs(s: string)
    ensures HexValue(s, 0) == HexNumber(s)
    decreases |s|
  {
    if s != "" {
      HexValueIs(s[..|s| - 1]);
      HexValueSnoc(s[..|s| - 1], s[|s| - 1], 0);
      assert s[..|s| - 1] + [s[|s| - 1]] == s;
    }
  }

  lemma {:induction false} HexDigitsOf(digits: string, rest: string)
    requires forall i :: 0 <= i < |digits| ==> HexDigit(digits[i]) < 16
    requires rest != "" ==> HexDigit(rest[0]) == 16
    ensures HexDigits(digits + rest) == digits
    decreases |digits|
  {
    if digits == "" {
      assert digits + rest == rest;
    } else {
      assert (digits + rest)[1..] == digits[1..] + rest;
      HexDigitsOf(digits[1..], rest);
      assert [digits[0]] + digits[1..] == digits;
    }
  }

  /** A zero and an x, in either case, begin a hexadecimal number of up to eight digits; more are an
      error, and what follows the digits is not looked at. */
  lemma HexNumbersRead(ctx: Context, x: char, digits: string, rest: string)
    requires x in "xX" && forall i :: 0 <= i < |digits| ==> HexDigit(digits[i]) < 16
    requires rest != "" ==> HexDigit(rest[0]) == 16
    ensures ReadNumber(ctx, "0" + [x] + digits + rest)
            == if |digits| > 8 then None else Some(ctx.ofInt(HexNumber(digits)))
  {
    hide ReadNumber, HexDigits, HexValue, HexNumber, HexDigit;
    var word := "0" + [x] + digits + rest;
    assert word[0] == '0' && word[1] == x && word[2..] == digits + rest;
    HexDigitsOf(digits, rest);
    HexValueIs(digits);
    PrefixedReads(ctx, word, digits);
  }

  lemma PrefixedReads(ctx: Context, word: string, digits: string)
    requires |word| >= 2 && word[0] == '0' && word[1] in "xX" && HexDigits(word[2..]) == digits
    ensures ReadNumber(ctx, word) == if |digits| > 8 then None else Some(ctx.ofInt(HexValue(digits, 0)))
  {
    hide HexDigits, HexValue;
  }

  /** Any other word is a decimal number if it begins like one, and none otherwise. */
  lemma OtherNumbersRead(ctx: Context, c: char, rest: string)
    requires c == '0' && rest != "" ==> rest[0] !in "xX"
    ensures ReadNumber(ctx, [c] + rest) == if c in "0123456789.-" then ctx.decimal([c] + rest) else None
  {
    assert rest != "" ==> ([c] + rest)[1] == rest[0];
  }

  lemma NumberReads(ctx: Context, n: nat)
    requires n < 0x1_0000_0000
    ensures IsWord("0x" + Hex(n, 8)) && Reads(ctx, "0x" + Hex(n, 8), n)
  {
    var word := "0x" + Hex(n, 8);
    assert Power16(8) == 0x1_0000_0000 by {
      assert Power16(4) == 65536;
      assert Power16(8) == 16 * 16 * 16 * 16 * Power16(4);
    }
    HexReads(n, 8);
    assert IsWord(word);
    NoUrl(word);
    WordIsNoSymbol(word);
    assert word[2..] == Hex(n, 8);
    assert ReadNumber(ctx, word) == Some(ctx.ofInt(n));
    hide ReadNumber, ContainsUrl, IsQuote, IsWord, Hex;
  }

  // ---- Reading: the expression -----------------------------------------------------------------------

  /** The name the parser knows an atom by: its place among the tokens. */
  function Label(i: nat): (s: string)
    ensures |s| == i
  {
    seq(i, _ => '.')
  }

  function ForParser(t: Token, i: nat): P.Token {
    match t
    case Open => P.OpenGroup
    case Close => P.CloseGroup
    case Comma => P.Separator
    case UnaryOp(op) => P.UnaryOperator(op)
    case BinaryOp(op) => P.Operator(op)
    case Call(name, arity) => P.Function(name, arity)
    case _ => P.Atom(Label(i))
  }

  function AllForParser(ts: seq<Token>): (r: seq<P.Token>)
    ensures |r| == |ts|
  {
    seq(|ts|, i requires 0 <= i < |ts| => ForParser(ts[i], i))
  }

  /** The evaluator: a context, its operations, what atoms other than numbers stand for, and how a
      number becomes an unsigned integer. */
  datatype Machine = Machine(ctx: Context, kind: P.Head -> Kind, leaf: Token -> Expr, toInt: Num -> nat)

  function Bound(m: Machine, ts: seq<Token>): G.Binding {
    G.Binding(s => if |s| < |ts| && ts[|s|].Number? then Literal(ts[|s|].n)
                   else if |s| < |ts| then m.leaf(ts[|s|]) else Literal(ZERO),
              m.kind)
  }

  /** The text without the colons an expression may begin with; nothing stands for zero. */
  function Prepared(text: string): string {
    if text == "" then "0" else WithoutColons(text)
  }

  function WithoutColons(text: string): string {
    if text != "" && text[0] == ':' then WithoutColons(text[1..]) else text
  }

  function TokensOf(ctx: Context, text: string): Option<seq<Token>> {
    var words := Lexed(Lexing.START, text, "");
    if words == [] then None else TokensFrom(ctx, words, 0, [])
  }

  /** The tree of an expression: what was parsed, in a group. */
  function Parse(m: Machine, text: string): Option<Expr> {
    var ts := TokensOf(m.ctx, Prepared(text));
    if ts.None? then None
    else
      var r := P.ParseChain(AllForParser(ts.value), 0);
      if r.Fail? then None else Some(Apply(Group, [G.Resolve(r.value, Bound(m, ts.value))]))
  }

  /** `StringToEnum`: zero when the text cannot be parsed or evaluated. */
  ghost function StringToEnum(m: Machine, text: string, env: Env): nat {
    var e := Parse(m, text);
    if e.None? then 0
    else
      var n := Denote(e.value, env);
      if n.Some? then m.toInt(n.value) else 0
  }

  /** Integers below 2^31 are exact numbers, and the bar is their bitwise or. */
  ghost predicate Exact(m: Machine) {
    && m.kind(P.Binary("|")).Strict?
    && (forall a, b :: 0 <= a < 0x8000_0000 && 0 <= b < 0x8000_0000 ==>
          m.kind(P.Binary("|")).fn([m.ctx.ofInt(a), m.ctx.ofInt(b)]) == m.ctx.ofInt(Or(a, b)))
    && (forall a :: 0 <= a < 0x8000_0000 ==> m.toInt(m.ctx.ofInt(a)) == a)
    && m.ctx.decimal("0") == Some(m.ctx.ofInt(0))
    && "|" in m.ctx.binary
  }

  /** The phrase of `n` atoms joined by bars. */
  function Phrase(n: nat): (c: G.Chain)
    requires n > 0
    ensures G.ChainOK(c) && |G.ChainTokens(c)| == 2 * n - 1
  {
    if n == 1 then G.One(G.AtomUnit(Label(0))) else G.Then(Phrase(n - 1), "|", G.AtomUnit(Label(2 * n - 2)))
  }

  lemma PhraseStep(n: nat)
    requires n > 0
    ensures n == 1 ==> G.ChainTokens(Phrase(n)) == [P.Atom(Label(2 * n - 2))]
    ensures n > 1 ==>
      G.ChainTokens(Phrase(n)) == G.ChainTokens(Phrase(n - 1)) + [P.Operator("|")] + [P.Atom(Label(2 * n - 2))]
  {
    hide Label;
  }

  /** The parser's tokens of the `j`-th number and of the bar after it. */
  lemma ParserTokenIs(ctx: Context, vals: seq<nat>, j: nat)
    requires j < |vals|
    ensures var ts := AllForParser(NumberTokens(ctx, vals));
            && |ts| == 2 * |vals| - 1 && ts[2 * j] == P.Atom(Label(2 * j))
            && (j + 1 < |vals| ==> ts[2 * j + 1] == P.Operator("|"))
  {
    hide Label;
    NumberTokenIs(ctx, vals, j);
  }

  lemma {:induction false} PhraseTokens(ctx: Context, vals: seq<nat>, n: nat)
    requires 0 < n <= |vals|
    ensures |AllForParser(NumberTokens(ctx, vals))| == 2 * |vals| - 1
    ensures G.ChainTokens(Phrase(n)) == AllForParser(NumberTokens(ctx, vals))[..2 * n - 1]
    decreases n
  {
    hide Label, NumberTokens, AllForParser, G.ChainTokens, Phrase;
    var ts := AllForParser(NumberTokens(ctx, vals));
    PhraseStep(n);
    ParserTokenIs(ctx, vals, n - 1);
    if n > 1 {
      PhraseTokens(ctx, vals, n - 1);
      ParserTokenIs(ctx, vals, n - 2);
      Extended(ts, 2 * n - 3);
    } else {
      assert ts[..1] == [ts[0]];
    }
  }

  lemma TotalStep(vals: seq<nat>, n: nat)
    requires 0 < n <= |vals|
    ensures Total(vals, n) == if n == 1 then vals[0] else Or(Total(vals, n - 1), vals[n - 1])
  {
    OrZero(vals[0]);
    assert Total(vals, 0) == 0;
  }

  lemma PhraseTreeStep(n: nat)
    requires n > 0
    ensures G.ChainTree(Phrase(n)) ==
            if n == 1 then P.Leaf(Label(2 * n - 2))
            else P.Node(P.Binary("|"), [G.ChainTree(Phrase(n - 1)), P.Leaf(Label(2 * n - 2))])
  {
    hide Label;
  }

  lemma {:induction false} TotalBound(vals: seq<nat>, n: nat)
    requires n <= |vals| && forall i :: 0 <= i < |vals| ==> vals[i] < Pow2(31)
    ensures Total(vals, n) < Pow2(31)
  {
    hide Or, Pow2;
    if n > 0 {
      TotalBound(vals, n - 1);
      OrBound(Total(vals, n - 1), vals[n - 1], 31);
    }
  }

  lemma Pow31()
    ensures Pow2(31) == 0x8000_0000
  {
    assert Pow2(8) == 256;
    assert Pow2(16) == 65536;
    assert Pow2(24) == 0x100_0000;
  }

  lemma OrZero(x: nat)
    ensures Or(0, x) == x
  {
  }

  /** The phrase of the numbers is worth all their bits. */
  lemma {:induction false} PhraseValue(m: Machine, vals: seq<nat>, n: nat, env: Env)
    requires Exact(m) && 0 < n <= |vals| && forall i :: 0 <= i < |vals| ==> vals[i] < 0x8000_0000
    ensures var b := Bound(m, NumberTokens(m.ctx, vals));
            Denote(G.Resolve(G.ChainTree(Phrase(n)), b), env) == Some(m.ctx.ofInt(Total(vals, n)))
    decreases n
  {
    hide Or, Exact, NumberTokens, Bound, Total, Phrase, G.ChainTree, G.Resolve, Label, Pow2;
    var b := Bound(m, NumberTokens(m.ctx, vals));
    AtomValue(m, vals, n - 1, env);
    TotalStep(vals, n);
    PhraseTreeStep(n);
    if n > 1 {
      PhraseValue(m, vals, n - 1, env);
      Pow31();
      TotalBound(vals, n - 1);
      BarMeans(m, G.ChainTree(Phrase(n - 1)), P.Leaf(Label(2 * n - 2)), b, Total(vals, n - 1), vals[n - 1], env);
    }
  }

  lemma AtomValue(m: Machine, vals: seq<nat>, j: nat, env: Env)
    requires j < |vals|
    ensures var b := Bound(m, NumberTokens(m.ctx, vals));
            b.kind == m.kind && Denote(G.Resolve(P.Leaf(Label(2 * j)), b), env) == Some(m.ctx.ofInt(vals[j]))
  {
    NumberTokenIs(m.ctx, vals, j);
  }

  lemma DenoteTwo(a: Expr, b: Expr, env: Env)
    requires Denote(a, env).Some? && Denote(b, env).Some?
    ensures DenoteAll([a, b], env) == Some([Denote(a, env).value, Denote(b, env).value])
  {
    assert [a, b][..1] == [a] && [a][..0] == [];
    assert DenoteAll([], env) == Some([]);
    var x, y := Denote(a, env).value, Denote(b, env).value;
    assert [] + [x] == [x] && [x] + [y] == [x, y];
    assert DenoteAll([a], env) == Some([Denote(a, env).value]);
  }

  lemma BarMeans(m: Machine, l: P.Tree, r: P.Tree, b: G.Binding, x: nat, y: nat, env: Env)
    requires Exact(m) && b.kind == m.kind && x < 0x8000_0000 && y < 0x8000_0000
    requires Denote(G.Resolve(l, b), env) == Some(m.ctx.ofInt(x)) && Denote(G.Resolve(r, b),
        env) == Some(m.ctx.ofInt(y))
    ensures Denote(G.Resolve(P.Node(P.Binary("|"), [l, r]), b), env) == Some(m.ctx.ofInt(Or(x, y)))
  {
    hide Or;
    var args := [G.Resolve(l, b), G.Resolve(r, b)];
    assert G.ResolveAll([l, r], b) == args;
    hide G.Resolve, DenoteAll;
    DenoteTwo(args[0], args[1], env);
    var e := Apply(m.kind(P.Binary("|")), args);
    assert Denote(e, env) == Some(m.ctx.ofInt(Or(x, y)));
    ResolveBar(l, r, b);
  }

  lemma ResolveBar(l: P.Tree, r: P.Tree, b: G.Binding)
    ensures G.Resolve(P.Node(P.Binary("|"), [l, r]), b) ==
            Apply(b.kind(P.Binary("|")), [G.Resolve(l, b), G.Resolve(r, b)])
  {
    assert G.ResolveAll([l, r], b) == [G.Resolve(l, b), G.Resolve(r, b)];
  }

  lemma TokensOfJoined(ctx: Context, words: seq<string>, vals: seq<nat>)
    requires "|" in ctx.binary && words != [] && |vals| == |words|
    requires forall i :: 0 <= i < |words| ==> IsWord(words[i]) && Reads(ctx, words[i], vals[i])
    ensures TokensOf(ctx, Prepared(Joined(words))) == Some(NumberTokens(ctx, vals))
  {
    hide Reads, TokensFrom, Lexed, Joined, Spaced, NumberTokens;
    JoinedStart(words);
    ColonIsNoWord();
    LexJoined(Lexing.START, words);
    TokensOfSpaced(ctx, words, vals, 0);
    assert NumberTokens(ctx, vals)[..0] == [];
  }

  lemma ParseNumbers(ctx: Context, vals: seq<nat>)
    requires vals != []
    ensures P.ParseChain(AllForParser(NumberTokens(ctx, vals)), 0) == P.Parsed(G.ChainTree(Phrase(|vals|)),
        2 * |vals| - 1)
  {
    hide P.ParseChain, AllForParser, Phrase, NumberTokens, G.ChainTokens;
    var toks := AllForParser(NumberTokens(ctx, vals));
    PhraseTokens(ctx, vals, |vals|);
    assert |toks| == 2 * |vals| - 1 && toks[..2 * |vals| - 1] == toks;
    G.ChainStops(Phrase(|vals|), toks, 0);
  }

  /** A text whose words read as numbers is worth all their bits. */
  lemma ReadJoined(m: Machine, words: seq<string>, vals: seq<nat>, env: Env)
    requires Exact(m) && words != [] && |vals| == |words|
    requires forall i :: 0 <= i < |words| ==>
      IsWord(words[i]) && Reads(m.ctx, words[i], vals[i]) && vals[i] < 0x8000_0000
    ensures StringToEnum(m, Joined(words), env) == Total(vals, |vals|)
  {
    hide Reads, Total, Joined, IsWord, Prepared, TokensOf, P.ParseChain, AllForParser, Phrase, NumberTokens,
        Bound, G.Resolve, G.ChainTree, Pow2, Or;
    TokensOfJoined(m.ctx, words, vals);
    ParseNumbers(m.ctx, vals);
    PhraseValue(m, vals, |vals|, env);
    Pow31();
    TotalBound(vals, |vals|);
  }

  lemma ColonIsNoWord()
    ensures !IsWordChar(':')
  {
  }

  lemma BlockedHere(ctx: Context, words: seq<string>, i: nat, before: seq<Token>)
    requires i < |words| && Blocks(ctx, words[i]) && (i + 1 < |words| ==> words[i + 1] == "|")
    ensures TokensFrom(ctx, words, i, before) == None
  {
    hide TokenAt;
    assert TokenAt(ctx, words, i, before) == None;
  }

  lemma {:induction false} TokensBlocked(ctx: Context, words: seq<string>, vals: seq<nat>, j: nat, b: nat,
      before: seq<Token>)
    requires "|" in ctx.binary && |vals| == |words| && j <= b < |words| && Blocks(ctx, words[b])
    requires forall i :: 0 <= i < b ==> Reads(ctx, words[i], vals[i])
    ensures TokensFrom(ctx, Spaced(words), 2 * j, before) == None
    decreases b - j
  {
    hide TokensFrom, Reads, Blocks;
    var ws := Spaced(words);
    SpacedAt(words, j);
    assert |ws| == 2 * |words| - 1;
    if j == b {
      BlockedHere(ctx, ws, 2 * j, before);
    } else {
      NumberStep(ctx, ws, 2 * j, before, vals[j]);
      TokensBlocked(ctx, words, vals, j + 1, b, before + [Number(ctx.ofInt(vals[j]))] + [BinaryOp("|")]);
    }
  }

  lemma BlockedJoined(m: Machine, words: seq<string>, vals: seq<nat>, b: nat, env: Env)
    requires "|" in m.ctx.binary && |vals| == |words| && b < |words| && Blocks(m.ctx, words[b])
    requires (forall i :: 0 <= i < |words| ==> IsWord(words[i])) && forall i :: 0 <= i < b ==> Reads(m.ctx,
        words[i], vals[i])
    ensures StringToEnum(m, Joined(words), env) == 0
  {
    hide Reads, Blocks, TokensFrom, Lexed, Joined, Spaced;
    JoinedStart(words);
    ColonIsNoWord();
    LexJoined(Lexing.START, words);
    TokensBlocked(m.ctx, words, vals, 0, b, []);
  }

  lemma PartReads(ctx: Context, def: EnumDef, p: Part)
    requires EnumOK(ctx, def) && PartOK(def.values, p) && ValueOf(def.values, p) < 0x8000_0000
    ensures var word := WordOf(def.values, p);
            && IsWord(word)
            && (if p.Flag? && Shadowed(ctx, word) then Blocks(ctx, word) else Reads(ctx, word, ValueOf(def.values, p)))
  {
    hide Reads, Blocks, Shadowed, Hex;
    match p {
      case Flag(k) => NameReads(ctx, def, k);
      case Left(n) => NumberReads(ctx, n);
    }
  }

  /** The flag is written under a name that cannot be read. */
  predicate Unreadable(ctx: Context, def: EnumDef, p: Part) {
    PartOK(def.values, p) && p.Flag? && Shadowed(ctx, def.values[p.k].name)
  }

  /** The first part, if any, that cannot be read. */
  function FirstUnreadable(ctx: Context, def: EnumDef, parts: seq<Part>): (b: nat)
    ensures b <= |parts| && (b < |parts| ==> Unreadable(ctx, def, parts[b]))
    ensures forall i :: 0 <= i < b ==> !Unreadable(ctx, def, parts[i])
  {
    if parts == [] || Unreadable(ctx, def, parts[0]) then 0 else 1 + FirstUnreadable(ctx, def, parts[1..])
  }

  /** Writing a value below 2^31 as flags and reading the text back, for any enumeration whose names
      are distinct identifiers: named bits, several bits under one name, what no name covers, and
      nothing at all. The value comes back exactly if no flag is written under a name like `eName`
      that is also the name of an enumeration the context knows. */
  lemma FlagsReadBack(m: Machine, def: EnumDef, v: nat, env: Env)
    requires Exact(m) && EnumOK(m.ctx, def) && v < 0x8000_0000
    ensures StringToEnum(m, FlagsText(def, v), env) == v <==>
            forall p :: p in PartsFrom(def.values, 0, v) ==> !Unreadable(m.ctx, def, p)
  {
    hide Reads, Blocks, StringToEnum, Joined, EnumOK, Exact, IsWord, WordOf, ValueOf, Unreadable, Total;
    var parts := PartsFrom(def.values, 0, v);
    PartsOK(def.values, 0, v);
    PartsTotal(def.values, v);
    if parts == [] {
      ReadZero(m, env);
      JoinedNone();
      assert Words(def.values, parts) == [] && Values(def.values, parts) == [];
      NoTotal();
    } else {
      ReadParts(m, def, parts, v, env);
    }
  }

  lemma NoTotal()
    ensures Total([], 0) == 0
  {
  }

  lemma ReadParts(m: Machine, def: EnumDef, parts: seq<Part>, v: nat, env: Env)
    requires Exact(m) && EnumOK(m.ctx, def) && v < 0x8000_0000 && parts != [] && v != 0
    requires forall p :: p in parts ==> PartOK(def.values, p) && ValueOf(def.values, p) <= v
    requires var vals := Values(def.values, parts); Total(vals, |vals|) == v
    ensures StringToEnum(m, Joined(Words(def.values, parts)), env) == v <==>
            forall p :: p in parts ==> !Unreadable(m.ctx, def, p)
  {
    hide Reads, Blocks, StringToEnum, Joined, EnumOK, Exact, IsWord, WordOf, ValueOf, Total, Shadowed;
    var words, vals := Words(def.values, parts), Values(def.values, parts);
    forall i | 0 <= i < |words|
      ensures IsWord(words[i])
      ensures if Unreadable(m.ctx, def, parts[i]) then Blocks(m.ctx, words[i]) else Reads(m.ctx, words[i], vals[i])
      ensures vals[i] < 0x8000_0000
    {
      assert parts[i] in parts;
      PartReads(m.ctx, def, parts[i]);
      PartWord(def, parts[i]);
    }
    BarKnown(m);
    var b := FirstUnreadable(m.ctx, def, parts);
    if b == |parts| {
      ReadJoined(m, words, vals, env);
    } else {
      assert parts[b] in parts;
      BlockedJoined(m, words, vals, b, env);
    }
  }

  lemma PartWord(def: EnumDef, p: Part)
    requires PartOK(def.values, p)
    ensures p.Flag? ==> WordOf(def.values, p) == def.values[p.k].name
  {
  }

  lemma BarKnown(m: Machine)
    requires Exact(m)
    ensures "|" in m.ctx.binary
  {
  }

  lemma ZeroReads(ctx: Context)
    requires ctx.decimal("0") == Some(ctx.ofInt(0))
    ensures IsWord("0") && Reads(ctx, "0", 0)
  {
    var word := "0";
    NoUrl(word);
    WordIsNoSymbol(word);
    assert ReadNumber(ctx, word) == Some(ctx.ofInt(0));
    hide ReadNumber, ContainsUrl, IsQuote, IsWord;
  }

  /** Nothing is written for zero, and nothing reads as zero. */
  lemma ReadZero(m: Machine, env: Env)
    requires Exact(m)
    ensures StringToEnum(m, "", env) == 0
  {
    hide Reads, IsWord, TokensOf, P.ParseChain;
    ZeroReads(m.ctx);
    ReadJoined(m, ["0"], [0], env);
    assert Joined(["0"]) == "0" && Prepared("0") == "0";
    assert Total([0], 0) == 0 && Total([0], 1) == 0;
  }
}
