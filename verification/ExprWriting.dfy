/** Expressions written as text: any phrase of the grammar, however its atoms are spelled and its words
    spaced, is read back as the tree it stands for. */
module ExprWriting {
  import opened Chars
  import opened Wrappers
  import opened Folding
  import opened Lexing
  import opened EnumFlags
  import opened ExprWords
  import opened TextEvaluation
  import P = Parsing
  import G = Grammar

  // ---- Phrases as token lists --------------------------------------------------------------------------

  /** The token ends an operand. */
  predicate Ends(t: P.Token) {
    t.Atom? || t.CloseGroup?
  }

  /** The token begins an operand. */
  predicate Starts(t: P.Token) {
    t.Atom? || t.UnaryOperator? || t.Function? || t.OpenGroup?
  }

  /** What the grammar says of two tokens in a row. */
  predicate Adjacent(p: P.Token, t: P.Token) {
    && (t.Operator? ==> Ends(p))
    && (t.UnaryOperator? ==> !Ends(p))
    && (Ends(p) ==> !Starts(t))
    && (p.Function? ==> t.OpenGroup?)
  }

  predicate NoClash(ts: seq<P.Token>) {
    forall i :: 0 < i < |ts| ==> Adjacent(ts[i - 1], ts[i])
  }

  /** An operand, or a list of operands. */
  predicate Operand(ts: seq<P.Token>) {
    NoClash(ts) && ts != [] && Starts(ts[0]) && Ends(ts[|ts| - 1])
  }

  lemma NoClashJoin(a: seq<P.Token>, b: seq<P.Token>)
    requires NoClash(a) && NoClash(b) && (a != [] && b != [] ==> Adjacent(a[|a| - 1], b[0]))
    ensures NoClash(a + b)
  {
    hide Adjacent;
    forall i | 0 < i < |a + b| ensures Adjacent((a + b)[i - 1], (a + b)[i]) {
      if i < |a| {
        assert Adjacent(a[i - 1], a[i]);
      } else if i > |a| {
        assert Adjacent(b[i - |a| - 1], b[i - |a|]);
      }
    }
  }

  lemma Bracketed(open: P.Token, inner: seq<P.Token>)
    requires NoClash(inner) && open.OpenGroup?
    requires inner != [] ==> Starts(inner[0]) && Ends(inner[|inner| - 1])
    ensures NoClash([open] + inner + [P.CloseGroup])
  {
    NoClashJoin([open], inner);
    NoClashJoin([open] + inner, [P.CloseGroup]);
  }

  /** Two operands with an operator or a comma between them. */
  lemma Separated(a: seq<P.Token>, t: P.Token, b: seq<P.Token>)
    requires Operand(a) && Operand(b) && (t.Operator? || t.Separator?)
    ensures Operand(a + [t] + b)
  {
    NoClashJoin(a, [t]);
    NoClashJoin(a + [t], b);
  }

  lemma {:induction false} UnitOperand(u: G.Unit)
    requires G.UnitOK(u)
    ensures Operand(G.UnitTokens(u))
    decreases u
  {
    match u {
      case AtomUnit(_) =>
      case PrefixUnit(op, v) =>
        UnitOperand(v);
        NoClashJoin([P.UnaryOperator(op)], G.UnitTokens(v));
      case GroupUnit(c) =>
        ChainOperand(c);
        Bracketed(P.OpenGroup, G.ChainTokens(c));
      case CallUnit(name, arity, args) =>
        ArgsOperand(args);
        var inner := [P.OpenGroup] + G.ArgsTokens(args) + [P.CloseGroup];
        Bracketed(P.OpenGroup, G.ArgsTokens(args));
        NoClashJoin([P.Function(name, arity)], inner);
        assert G.UnitTokens(u) == [P.Function(name, arity)] + inner;
    }
  }

  lemma {:induction false} ChainOperand(c: G.Chain)
    requires G.ChainOK(c)
    ensures Operand(G.ChainTokens(c))
    decreases c
  {
    match c {
      case One(u) => UnitOperand(u);
      case Then(d, op, u) =>
        ChainOperand(d);
        UnitOperand(u);
        Separated(G.ChainTokens(d), P.Operator(op), G.UnitTokens(u));
    }
  }

  lemma {:induction false} ArgsOperand(a: G.Args)
    requires G.ArgsOK(a)
    ensures if a.NoArgs? then G.ArgsTokens(a) == [] else Operand(G.ArgsTokens(a))
    decreases a
  {
    match a {
      case NoArgs =>
      case Last(c) => ChainOperand(c);
      case More(c, rest) =>
        ChainOperand(c);
        ArgsOperand(rest);
        Separated(G.ChainTokens(c), P.Separator, G.ArgsTokens(rest));
    }
  }

  // ---- Spellings ---------------------------------------------------------------------------------------

  /** The ways to write an atom: numbers, names and elements of the default enumeration, then the ways
      that take several words, strings and URLs. */
  datatype Spelling =
    | Plain(word: string)
    | Decimal(whole: string, part: string)
    | Percentage(word: string)
    | DecimalPercentage(whole: string, part: string)
    | EnumElement(enum: string, element: string)
    | Quoted(open: char, body: string, close: char)
    | Link(scheme: string, rest: string)

  function Pieces(s: Spelling): seq<string> {
    match s
    case Plain(word) => [word]
    case Decimal(whole, part) => NonEmpty(whole) + [".", part]
    case Percentage(word) => [word, "%"]
    case DecimalPercentage(whole, part) => NonEmpty(whole) + [".", part, "%"]
    case EnumElement(enum, element) => [enum, ".", element]
    case Quoted(open, body, close) => [QuotedWord(open, body, close)]
    case Link(scheme, rest) => [LinkWord(scheme, rest)]
  }

  /** The value of the first element of that name. */
  function ElementOf(values: seq<EnumValue>, name: string): Option<nat> {
    if values == [] then None
    else if values[0].name == name then Some(values[0].value)
    else ElementOf(values[1..], name)
  }

  /** Numbers with or without decimals. */
  predicate IsDecimal(ctx: Context, whole: string, part: string) {
    && (whole == "" || (IsPlain(whole) && ReadNumber(ctx, whole).Some?))
    && IsPlain(part)
    && ReadNumber(ctx, whole + "." + part).Some?
  }

  function ElementsOf(ctx: Context, enum: string): seq<EnumValue> {
    if enum in ctx.enums then ctx.enums[enum].values else []
  }

  predicate SpellingOK(ctx: Context, s: Spelling) {
    match s
    case Plain(word) => IsPlain(word) && !Shadowed(ctx, word)
    case Decimal(whole, part) => IsDecimal(ctx, whole, part)
    case Percentage(word) => IsPlain(word) && ReadNumber(ctx, word).Some?
    case DecimalPercentage(whole, part) => IsDecimal(ctx, whole, part)
    case EnumElement(enum, element) =>
      IsPlain(enum) && Shadowed(ctx, enum) && IsPlain(element) && ElementOf(ElementsOf(ctx, enum), element).Some?
    case Quoted(open, body, close) => open in "\"'" && close in "\"'`" && NoQuotes(body)
    case Link(scheme, rest) => IsWord(scheme) && InLink(rest)
  }

  /** A number, an element of the default enumeration, or a name. */
  function PlainToken(ctx: Context, word: string): Token {
    var values := if ctx.defaultEnum.Some? then ctx.defaultEnum.value.values else [];
    var element := ElementOf(values, word);
    if ReadNumber(ctx, word).Some? then Number(ReadNumber(ctx, word).value)
    else if element.Some? then Number(ctx.ofInt(element.value))
    else Name(word)
  }

  function NumberOrNothing(n: Option<Num>): Token {
    if n.Some? then Number(n.value) else Name("")
  }

  function Percent(ctx: Context, n: Option<Num>): Option<Num> {
    if n.Some? then Some(ctx.percent(n.value)) else None
  }

  function SpelledToken(ctx: Context, s: Spelling): Token {
    match s
    case Plain(word) => PlainToken(ctx, word)
    case Decimal(whole, part) => NumberOrNothing(ReadNumber(ctx, whole + "." + part))
    case Percentage(word) => NumberOrNothing(Percent(ctx, ReadNumber(ctx, word)))
    case DecimalPercentage(whole, part) => NumberOrNothing(Percent(ctx, ReadNumber(ctx, whole + "." + part)))
    case EnumElement(enum, element) =>
      var v := ElementOf(ElementsOf(ctx, enum), element);
      if v.Some? then Number(ctx.ofInt(v.value)) else Name("")
    case Quoted(open, body, close) => Text(if close == open then body else body + [close])
    case Link(scheme, rest) => Url(LinkWord(scheme, rest))
  }

  /** How a phrase is written: how each atom is spelled, and which brackets are square. */
  datatype Style = Style(atom: string -> Spelling, square: nat -> bool)

  /** The words of the `i`-th token. */
  function TokenWords(st: Style, t: P.Token, i: nat): (words: seq<string>)
    ensures words != []
  {
    match t
    case Atom(name) => Pieces(st.atom(name))
    case Operator(op) => [op]
    case UnaryOperator(op) => [op]
    case Function(name, _) => [name]
    case OpenGroup => [if st.square(i) then "[" else "("]
    case CloseGroup => [if st.square(i) then "]" else ")"]
    case Separator => [","]
  }

  /** The words of the tokens from the `i`-th on. */
  function WordsFrom(st: Style, ts: seq<P.Token>, i: nat): seq<string>
    requires i <= |ts|
    decreases |ts| - i
  {
    if i == |ts| then [] else TokenWords(st, ts[i], i) + WordsFrom(st, ts, i + 1)
  }

  function WordsOf(st: Style, ts: seq<P.Token>): seq<string> {
    WordsFrom(st, ts, 0)
  }

  function Lexeme(ctx: Context, st: Style, t: P.Token): Token {
    match t
    case Atom(name) => SpelledToken(ctx, st.atom(name))
    case Operator(op) => BinaryOp(op)
    case UnaryOperator(op) => UnaryOp(op)
    case Function(name, arity) => Call(name, arity)
    case OpenGroup => Open
    case CloseGroup => Close
    case Separator => Comma
  }

  function Lexemes(ctx: Context, st: Style, ts: seq<P.Token>): (r: seq<Token>)
    ensures |r| == |ts|
  {
    seq(|ts|, i requires 0 <= i < |ts| => Lexeme(ctx, st, ts[i]))
  }

  /** The operators that can be written as one word: two exclamation marks are two words. */
  const WRITTEN := {"+", "-", "*", "/", "!", "|", "^", "&", "~", "&&", "||", "==", "!=", ">", ">=", "<", "<="}

  /** The context knows the `i`-th token: operators and functions as they are used, and how each atom is
      spelled. The parenthesis of a call is not square. */
  predicate Known(ctx: Context, st: Style, ts: seq<P.Token>, i: nat)
    requires i < |ts|
  {
    match ts[i]
    case Atom(name) => SpellingOK(ctx, st.atom(name))
    case Operator(op) => op in WRITTEN && op in ctx.binary
    case UnaryOperator(op) => op in WRITTEN && op in ctx.unary
    case Function(name, arity) =>
      && IsPlain(name) && ReadNumber(ctx, name).None?
      && name in ctx.functions && ctx.functions[name] == arity && !st.square(i + 1)
    case _ => true
  }

  predicate AllKnown(ctx: Context, st: Style, ts: seq<P.Token>) {
    forall i :: 0 <= i < |ts| ==> Known(ctx, st, ts, i)
  }

  // ---- The words of a phrase are whole -----------------------------------------------------------------

  lemma AllWholeJoin(a: seq<string>, b: seq<string>)
    requires AllWhole(a) && AllWhole(b)
    ensures AllWhole(a + b)
  {
    hide IsWhole;
  }

  lemma WordIsPlain(word: string)
    requires IsWord(word)
    ensures IsPlain(word)
  {
    WordPlainFrom(word[0], word[1..]);
  }

  lemma {:induction false} WordPlainFrom(prev: char, word: string)
    requires forall i :: 0 <= i < |word| ==> IsWordChar(word[i])
    ensures PlainFrom(prev, word)
    decreases |word|
  {
    if word != "" {
      WordPlainFrom(word[0], word[1..]);
    }
  }

  lemma PiecesWhole(ctx: Context, s: Spelling)
    requires SpellingOK(ctx, s)
    ensures AllWhole(Pieces(s))
  {
    hide IsWordChar, ReadNumber, Shadowed, PlainFrom;
    match s {
      case Plain(_) =>
      case Decimal(whole, part) => assert AllWhole(NonEmpty(whole)) && AllWhole([".", part]);
      case Percentage(_) =>
      case DecimalPercentage(whole, part) => assert AllWhole(NonEmpty(whole)) && AllWhole([".", part, "%"]);
      case EnumElement(_, _) =>
      case Quoted(_, _, _) =>
      case Link(_, _) =>
    }
  }

  lemma TokenWhole(ctx: Context, st: Style, ts: seq<P.Token>, i: nat)
    requires i < |ts| && Known(ctx, st, ts, i)
    ensures AllWhole(TokenWords(st, ts[i], i))
  {
    hide IsWordChar, ReadNumber, SpellingOK, Pieces, IsPlain;
    match ts[i] {
      case Atom(name) => PiecesWhole(ctx, st.atom(name));
      case Operator(op) => assert IsWhole(op);
      case UnaryOperator(op) => assert IsWhole(op);
      case Function(name, _) => PlainGiven(name);
      case OpenGroup => assert IsWhole("(") && IsWhole("[");
      case CloseGroup => assert IsWhole(")") && IsWhole("]");
      case Separator => assert IsWhole(",");
    }
  }

  lemma PlainGiven(word: string)
    requires IsPlain(word)
    ensures word != "" && IsWhole(word)
  {
  }

  lemma {:induction false} WordsWhole(ctx: Context, st: Style, ts: seq<P.Token>, i: nat)
    requires AllKnown(ctx, st, ts) && i <= |ts|
    ensures AllWhole(WordsFrom(st, ts, i))
    decreases |ts| - i
  {
    hide Known, AllWhole, TokenWords;
    if i == |ts| {
      NoneWhole();
    } else {
      TokenWhole(ctx, st, ts, i);
      WordsWhole(ctx, st, ts, i + 1);
      AllWholeJoin(TokenWords(st, ts[i], i), WordsFrom(st, ts, i + 1));
    }
  }

  lemma NoneWhole()
    ensures AllWhole([])
  {
  }

  // ---- Each token is read from its words -----------------------------------------------------------------

  /** `piece` is what `words` holds from place `i`. */
  predicate Lies(words: seq<string>, i: nat, piece: seq<string>) {
    i + |piece| <= |words| && forall k :: 0 <= k < |piece| ==> words[i + k] == piece[k]
  }

  /** What may come after an atom. */
  predicate AfterAtom(words: seq<string>, i: nat) {
    i < |words| ==> words[i] !in {"", ".", "%"} && words[i][0] != '('
  }

  lemma EndsOperand(ctx: Context, st: Style, t: P.Token, before: seq<Token>)
    requires before != [] && before[|before| - 1] == Lexeme(ctx, st, t)
    ensures OperandNext(before) <==> !Ends(t)
  {
  }

  lemma {:induction false} NoSlashes(word: string)
    requires ':' !in word
    ensures !ContainsUrl(word)
    decreases |word|
  {
    if |word| >= 3 {
      assert word[..3][0] == word[0];
      NoSlashes(word[1..]);
    }
  }

  lemma PlainIsNoSymbol(word: string)
    requires IsPlain(word)
    ensures word !in OPERATORS && word != "(" && word != "[" && word != ")" && word != "]" && word != "," && word != "."
    ensures word != "" && !IsQuote(word[0]) && word[0] != '.' && word[0] != '-' && !ContainsUrl(word)
  {
    hide ContainsUrl;
    PlainNoColon(word[0], word[1..]);
    assert word == [word[0]] + word[1..];
    NoSlashes(word);
    StartsPlain(word);
  }

  lemma StartsPlain(word: string)
    requires word != "" && IsWordChar(word[0])
    ensures word !in OPERATORS && word != "(" && word != "[" && word != ")" && word != "]" && word != "," && word != "."
    ensures !IsQuote(word[0]) && word[0] != '.' && word[0] != '-'
  {
  }

  lemma {:induction false} ElementIndex(values: seq<EnumValue>, name: string)
    ensures var k := ValueIndex(values, name);
            ElementOf(values, name) == if k < |values| then Some(values[k].value) else None
    decreases |values|
  {
    if values != [] && values[0].name != name {
      ElementIndex(values[1..], name);
    }
  }

  lemma PlainAt(ctx: Context, words: seq<string>, i: nat, before: seq<Token>, word: string)
    requires Lies(words, i, [word]) && IsPlain(word) && !Shadowed(ctx, word) && AfterAtom(words, i + 1)
    ensures TokenAt(ctx, words, i, before) == Some((PlainToken(ctx, word), i + 1))
  {
    assert words[i + 0] == [word][0];
    PlainIsNoSymbol(word);
    if ctx.defaultEnum.Some? {
      ElementIndex(ctx.defaultEnum.value.values, word);
    }
    NoElement(word);
    hide ReadNumber, ContainsUrl, IsQuote, ValueIndex, IsPlain, ElementOf, Lies;
  }

  lemma NoElement(name: string)
    ensures ElementOf([], name) == None
  {
  }

  /** A number read from its words, the dot and the percent sign being words of their own. */
  lemma NumeralAt(ctx: Context, words: seq<string>, i: nat, before: seq<Token>)
    requires i < |words| && (words[i] == "." || (IsPlain(words[i]) && ReadNumber(ctx, words[i]).Some?))
    ensures words[i] != "" && TokenAt(ctx, words, i, before) == NumberAt(ctx, words, i)
  {
    if words[i] != "." {
      PlainIsNoSymbol(words[i]);
    }
    hide ReadNumber, ContainsUrl, IsQuote, NumberAt, IsPlain;
    assert !ContainsUrl(".") && !IsQuote('.') by { DotIsPlain(); }
  }

  lemma DotIsPlain()
    ensures !ContainsUrl(".") && !IsQuote('.') && "." !in OPERATORS
  {
  }

  lemma DecimalAt(ctx: Context, words: seq<string>, i: nat, before: seq<Token>, whole: string, part: string)
    requires IsDecimal(ctx, whole, part) && Lies(words, i, NonEmpty(whole) + [".", part])
    ensures var n, v := i + |NonEmpty(whole)| + 2, ReadNumber(ctx, whole + "." + part).value;
            TokenAt(ctx, words, i, before) ==
            if n < |words| && words[n] == "%" then Some((Number(ctx.percent(v)), n + 1)) else Some((Number(v), n))
  {
    hide ReadNumber, IsPlain, TokenAt, NumberAt;
    var pieces := NonEmpty(whole) + [".", part];
    assert words[i + 0] == pieces[0] && words[i + 1] == pieces[1];
    assert whole != "" ==> words[i + 2] == pieces[2];
    PlainGiven(part);
    if whole != "" {
      PlainIsNoSymbol(whole);
    }
    NumeralAt(ctx, words, i, before);
    DecimalNumber(ctx, words, i, whole, part);
  }

  lemma DecimalNumber(ctx: Context, words: seq<string>, i: nat, whole: string, part: string)
    requires i + |NonEmpty(whole)| + 1 < |words| && ReadNumber(ctx, whole + "." + part).Some? && part != ""
    requires if whole == "" then words[i] == "." && words[i + 1] == part
             else words[i] == whole && words[i + 1] == "." && words[i + 2] == part
    requires whole != "" ==> whole[0] != '.' && ReadNumber(ctx, whole).Some?
    ensures var n, v := i + |NonEmpty(whole)| + 2, ReadNumber(ctx, whole + "." + part).value;
            NumberAt(ctx, words, i) ==
            if n < |words| && words[n] == "%" then Some((Number(ctx.percent(v)), n + 1)) else Some((Number(v), n))
  {
    hide ReadNumber;
    assert "" + "." + part == "." + part;
  }

  /** At the end of a text a dot may end a number, but may not stand alone. */
  lemma DotAtEnd(ctx: Context, words: seq<string>, i: nat, before: seq<Token>, word: string)
    ensures i + 1 == |words| && words[i] == "." ==> TokenAt(ctx, words, i, before) == None
    ensures i + 2 == |words| && words[i] == word && words[i + 1] == "."
            && IsPlain(word) && ReadNumber(ctx, word).Some? ==>
              TokenAt(ctx, words, i, before) ==
              var n := ReadNumber(ctx, word + "."); if n.None? then None else Some((Number(n.value), i + 2))
  {
    if i + 1 == |words| && words[i] == "." {
      NumeralAt(ctx, words, i, before);
    }
    if i + 2 == |words| && IsPlain(words[i]) && ReadNumber(ctx, words[i]).Some? {
      PlainIsNoSymbol(words[i]);
      NumeralAt(ctx, words, i, before);
    }
    hide ReadNumber, IsPlain, TokenAt;
  }

  lemma PercentAt(ctx: Context, words: seq<string>, i: nat, before: seq<Token>, word: string)
    requires Lies(words, i, [word, "%"]) && IsPlain(word) && ReadNumber(ctx, word).Some?
    ensures TokenAt(ctx, words, i, before) == Some((Number(ctx.percent(ReadNumber(ctx, word).value)), i + 2))
  {
    assert words[i + 0] == [word, "%"][0] && words[i + 1] == [word, "%"][1];
    PlainIsNoSymbol(word);
    NumeralAt(ctx, words, i, before);
    hide ReadNumber, IsPlain, TokenAt, Lies;
  }

  lemma ElementAt(ctx: Context, words: seq<string>, i: nat, before: seq<Token>, enum: string, element: string)
    requires Lies(words, i, [enum, ".", element]) && IsPlain(enum) && Shadowed(ctx, enum)
    requires ElementOf(ElementsOf(ctx, enum), element).Some?
    ensures TokenAt(ctx, words, i, before)
            == Some((Number(ctx.ofInt(ElementOf(ElementsOf(ctx, enum), element).value)), i + 3))
  {
    var pieces := [enum, ".", element];
    assert words[i + 0] == pieces[0] && words[i + 1] == pieces[1] && words[i + 2] == pieces[2];
    PlainIsNoSymbol(enum);
    ElementIndex(ctx.enums[enum].values, element);
    assert ReadNumber(ctx, enum) == None;
    hide ReadNumber, ContainsUrl, IsQuote, ValueIndex, IsPlain, ElementOf, Lies;
  }

  lemma {:induction false} TrimQuoted(body: string, open: char, close: char)
    requires open in "\"'" && IsQuote(close) && NoQuotes(body)
    ensures Trim(QuotedWord(open, body, close), open) == if close == open then body else body + [close]
  {
    var word := QuotedWord(open, body, close);
    assert word[0] == open && word[1..] == body + [close];
    TrimNothing(body, open);
    TrimEnd(body, open, close);
  }

  lemma TrimEnd(body: string, open: char, close: char)
    requires open in "\"'" && NoQuotes(body) && Trim(body, open) == body
    ensures Trim(body + [close], open) == if close == open then body else body + [close]
  {
    var s := body + [close];
    assert s[|s| - 1] == close && s[..|s| - 1] == body;
    if body == "" {
      assert s[1..] == "" && s == [close];
    } else {
      assert s[0] == body[0] != open;
    }
  }

  lemma TrimNothing(body: string, open: char)
    requires open in "\"'" && NoQuotes(body)
    ensures Trim(body, open) == body
  {
    if body != "" {
      assert body[0] != open && body[|body| - 1] != open;
    }
  }

  lemma QuotedAt(ctx: Context, words: seq<string>, i: nat, before: seq<Token>, open: char, body: string, close: char)
    requires Lies(words, i, [QuotedWord(open, body, close)]) && open in "\"'" && close in "\"'`" && NoQuotes(body)
    ensures TokenAt(ctx, words, i, before) == Some((Text(if close == open then body else body + [close]), i + 1))
  {
    assert words[i + 0] == [QuotedWord(open, body, close)][0];
    TrimQuoted(body, open, close);
  }

  lemma {:induction false} LinkContainsUrl(scheme: string, rest: string)
    ensures ContainsUrl(LinkWord(scheme, rest))
    decreases |scheme|
  {
    if scheme == "" {
      assert LinkWord("", rest)[..3] == "://";
    } else {
      LinkContainsUrl(scheme[1..], rest);
      assert LinkWord(scheme, rest)[1..] == LinkWord(scheme[1..], rest);
    }
  }

  lemma LinkAt(ctx: Context, words: seq<string>, i: nat, before: seq<Token>, scheme: string, rest: string)
    requires Lies(words, i, [LinkWord(scheme, rest)]) && IsWord(scheme)
    ensures TokenAt(ctx, words, i, before) == Some((Url(LinkWord(scheme, rest)), i + 1))
  {
    assert words[i + 0] == [LinkWord(scheme, rest)][0];
    LinkContainsUrl(scheme, rest);
    assert words[i][0] == scheme[0] && IsWordChar(scheme[0]) && |words[i]| > 3;
    hide ContainsUrl, IsWord, LinkWord;
  }

  /** Each spelling is read as its token. */
  lemma AtomAt(ctx: Context, words: seq<string>, i: nat, before: seq<Token>, s: Spelling)
    requires SpellingOK(ctx, s) && Lies(words, i, Pieces(s)) && AfterAtom(words, i + |Pieces(s)|)
    ensures TokenAt(ctx, words, i, before) == Some((SpelledToken(ctx, s), i + |Pieces(s)|))
  {
    hide TokenAt, IsPlain, IsDecimal, Shadowed, ReadNumber, ElementOf, NoQuotes, IsWord, PlainToken, Lies;
    match s {
      case Plain(word) => PlainAt(ctx, words, i, before, word);
      case Decimal(whole, part) =>
        DecimalGiven(ctx, whole, part);
        DecimalAt(ctx, words, i, before, whole, part);
      case Percentage(word) => PercentAt(ctx, words, i, before, word);
      case DecimalPercentage(whole, part) =>
        DecimalGiven(ctx, whole, part);
        assert Pieces(s) == NonEmpty(whole) + [".", part] + ["%"];
        LiesSplit(words, i, NonEmpty(whole) + [".", part], ["%"]);
        DecimalAt(ctx, words, i, before, whole, part);
      case EnumElement(enum, element) => ElementAt(ctx, words, i, before, enum, element);
      case Quoted(open, body, close) => QuotedAt(ctx, words, i, before, open, body, close);
      case Link(scheme, rest) => LinkAt(ctx, words, i, before, scheme, rest);
    }
  }

  lemma DecimalGiven(ctx: Context, whole: string, part: string)
    requires IsDecimal(ctx, whole, part)
    ensures ReadNumber(ctx, whole + "." + part).Some?
  {
  }

  lemma LiesSplit(words: seq<string>, i: nat, a: seq<string>, b: seq<string>)
    requires Lies(words, i, a + b)
    ensures Lies(words, i, a) && Lies(words, i + |a|, b) && (b != [] ==> words[i + |a|] == b[0])
  {
    forall k | 0 <= k < |a| ensures words[i + k] == a[k] {
      assert (a + b)[k] == a[k];
    }
    forall k | 0 <= k < |b| ensures words[i + |a| + k] == b[k] {
      assert (a + b)[|a| + k] == b[k] && words[i + (|a| + k)] == (a + b)[|a| + k];
    }
  }

  lemma CallAt(ctx: Context, words: seq<string>, i: nat, before: seq<Token>)
    requires i + 1 < |words| && IsPlain(words[i]) && ReadNumber(ctx, words[i]).None? && words[i] in ctx.functions
    requires words[i + 1] == "("
    ensures TokenAt(ctx, words, i, before) == Some((Call(words[i], ctx.functions[words[i]]), i + 1))
  {
    PlainIsNoSymbol(words[i]);
    hide ReadNumber, ContainsUrl, IsQuote, ValueIndex, IsPlain;
  }

  lemma OperatorAt(ctx: Context, words: seq<string>, i: nat, before: seq<Token>)
    requires i < |words| && words[i] in WRITTEN
    ensures OperandNext(before) && words[i] in ctx.unary ==>
              TokenAt(ctx, words, i, before) == Some((UnaryOp(words[i]), i + 1))
    ensures !OperandNext(before) && words[i] in ctx.binary ==>
              TokenAt(ctx, words, i, before) == Some((BinaryOp(words[i]), i + 1))
  {
    hide OperandNext;
    assert !ContainsUrl(words[i]);
  }

  lemma BracketAt(ctx: Context, words: seq<string>, i: nat, before: seq<Token>)
    requires i < |words|
    ensures words[i] in {"(", "["} ==> TokenAt(ctx, words, i, before) == Some((Open, i + 1))
    ensures words[i] in {")", "]"} ==> TokenAt(ctx, words, i, before) == Some((Close, i + 1))
    ensures words[i] == "," ==> TokenAt(ctx, words, i, before) == Some((Comma, i + 1))
  {
  }

  /** The words of the tokens from the `i`-th on are at the end of `words`, from place `j`. */
  predicate Remain(st: Style, ts: seq<P.Token>, i: nat, words: seq<string>, j: nat) {
    i <= |ts| && j <= |words| && words[j..] == WordsFrom(st, ts, i)
  }

  lemma RemainStep(st: Style, ts: seq<P.Token>, i: nat, words: seq<string>, j: nat)
    requires i < |ts| && Remain(st, ts, i, words, j)
    ensures Lies(words, j, TokenWords(st, ts[i], i))
    ensures j < |words| && words[j] == TokenWords(st, ts[i], i)[0]
    ensures Remain(st, ts, i + 1, words, j + |TokenWords(st, ts[i], i)|)
  {
    hide TokenWords;
    var a, b := TokenWords(st, ts[i], i), WordsFrom(st, ts, i + 1);
    assert words[j..] == a + b;
    assert |words[j..]| == |a| + |b|;
    forall k | 0 <= k < |a| ensures words[j + k] == a[k] {
      assert words[j..][k] == (a + b)[k];
    }
    assert words[j + 0] == a[0];
    assert words[j + |a|..] == words[j..][|a|..] == (a + b)[|a|..] == b;
  }

  /** The token after an operand leaves it as it is. */
  lemma NextFollows(ctx: Context, st: Style, ts: seq<P.Token>, i: nat, words: seq<string>, j: nat)
    requires i <= |ts| && Remain(st, ts, i, words, j) && AllKnown(ctx, st, ts)
    requires i < |ts| ==> !Starts(ts[i])
    ensures AfterAtom(words, j)
  {
    hide SpellingOK, Pieces, IsPlain, ReadNumber;
    if i < |ts| {
      RemainStep(st, ts, i, words, j);
      assert Known(ctx, st, ts, i);
    }
  }

  /** The next token is read from its words. */
  lemma TokenReads(ctx: Context, st: Style, ts: seq<P.Token>, i: nat, words: seq<string>, j: nat)
    requires Operand(ts) && AllKnown(ctx, st, ts) && i < |ts| && Remain(st, ts, i, words, j)
    ensures j < |words|
    ensures TokenAt(ctx, words, j, Lexemes(ctx, st, ts)[..i])
            == Some((Lexeme(ctx, st, ts[i]), j + |TokenWords(st, ts[i], i)|))
  {
    hide TokenAt, IsPlain, SpellingOK, SpelledToken, Pieces, ReadNumber, OperandNext, AfterAtom, Remain, Lies;
    var before := Lexemes(ctx, st, ts)[..i];
    RemainStep(st, ts, i, words, j);
    assert Known(ctx, st, ts, i);
    if i + 1 < |ts| {
      assert Adjacent(ts[i], ts[i + 1]);
    }
    if i > 0 {
      assert Adjacent(ts[i - 1], ts[i]);
      EndsOperand(ctx, st, ts[i - 1], before);
    } else {
      AtStart(before);
    }
    match ts[i] {
      case Atom(name) =>
        NextFollows(ctx, st, ts, i + 1, words, j + |TokenWords(st, ts[i], i)|);
        AtomAt(ctx, words, j, before, st.atom(name));
      case Operator(_) => OperatorAt(ctx, words, j, before);
      case UnaryOperator(_) => OperatorAt(ctx, words, j, before);
      case Function(_, _) =>
        RemainStep(st, ts, i + 1, words, j + 1);
        CallAt(ctx, words, j, before);
      case OpenGroup => BracketAt(ctx, words, j, before);
      case CloseGroup => BracketAt(ctx, words, j, before);
      case Separator => BracketAt(ctx, words, j, before);
    }
  }

  lemma AtStart(before: seq<Token>)
    requires before == []
    ensures OperandNext(before)
  {
  }

  lemma {:induction false} WordsRead(ctx: Context, st: Style, ts: seq<P.Token>, i: nat, words: seq<string>, j: nat)
    requires Operand(ts) && AllKnown(ctx, st, ts) && Remain(st, ts, i, words, j)
    ensures TokensFrom(ctx, words, j, Lexemes(ctx, st, ts)[..i]) == Some(Lexemes(ctx, st, ts))
    decreases |ts| - i
  {
    hide TokenAt, Operand, AllKnown, Lexeme, TokenWords;
    var all := Lexemes(ctx, st, ts);
    if i == |ts| {
      assert all[..i] == all;
    } else {
      TokenReads(ctx, st, ts, i, words, j);
      RemainStep(st, ts, i, words, j);
      assert all[..i] + [all[i]] == all[..i + 1];
      WordsRead(ctx, st, ts, i + 1, words, j + |TokenWords(st, ts[i], i)|);
    }
  }

  /** The colons that an expression may begin with. */
  function Colons(n: nat): string {
    if n == 0 then "" else ":" + Colons(n - 1)
  }

  lemma {:induction false} ColonsDropped(n: nat, text: string)
    requires text != "" && text[0] != ':'
    ensures Prepared(Colons(n) + text) == text
  {
    if n == 0 {
      assert Colons(0) + text == text;
    } else {
      ColonsDropped(n - 1, text);
      assert (Colons(n) + text)[1..] == Colons(n - 1) + text;
    }
  }

  lemma NoColonFirst(word: string)
    requires word != "" && IsWhole(word)
    ensures word[0] != ':' && !Glued(NUL, word[0])
  {
    if !IsSymbol(word) && !IsPlain(word) && !IsQuoted(word) {
      var scheme, rest :| IsWord(scheme) && InLink(rest) && word == LinkWord(scheme, rest);
      assert word[0] == scheme[0] && IsWordChar(scheme[0]);
    }
  }

  /** The text of an operand, however spelled and spaced, is read as its tokens. */
  lemma TextReads(ctx: Context, st: Style, ts: seq<P.Token>, gaps: seq<string>, colons: nat)
    requires Operand(ts) && AllKnown(ctx, st, ts) && GapsOK(WordsOf(st, ts), gaps)
    ensures |gaps| == |WordsOf(st, ts)|
    ensures TokensOf(ctx, Prepared(Colons(colons) + Spread(WordsOf(st, ts), gaps))) == Some(Lexemes(ctx, st, ts))
  {
    hide Lexed, TokensFrom, Known, NoClash, TokenWords, GapsOK, AllWhole, IsWhole, Glued, Prepared;
    var words := WordsOf(st, ts);
    LengthsOK(words, gaps);
    WordsWhole(ctx, st, ts, 0);
    assert words != [];
    FirstWhole(words);
    NoColonFirst(words[0]);
    SpreadStart(words, gaps);
    ColonsDropped(colons, Spread(words, gaps));
    LexSpread(Lexing.START, words, gaps);
    assert words[0..] == words;
    WordsRead(ctx, st, ts, 0, words, 0);
    assert Lexemes(ctx, st, ts)[..0] == [];
  }

  // ---- The tree of the text ------------------------------------------------------------------------------

  /** The phrase with its atoms named by their places among the tokens, the first being `i`. */
  function NumberedUnit(u: G.Unit, i: nat): G.Unit
    decreases u
  {
    match u
    case AtomUnit(_) => G.AtomUnit(Label(i))
    case PrefixUnit(op, v) => G.PrefixUnit(op, NumberedUnit(v, i + 1))
    case GroupUnit(c) => G.GroupUnit(Numbered(c, i + 1))
    case CallUnit(name, arity, args) => G.CallUnit(name, arity, NumberedArgs(args, i + 2))
  }

  function Numbered(c: G.Chain, i: nat): G.Chain
    decreases c
  {
    match c
    case One(u) => G.One(NumberedUnit(u, i))
    case Then(d, op, u) => G.Then(Numbered(d, i), op, NumberedUnit(u, i + |G.ChainTokens(d)| + 1))
  }

  function NumberedArgs(a: G.Args, i: nat): G.Args
    decreases a
  {
    match a
    case NoArgs => G.NoArgs
    case Last(c) => G.Last(Numbered(c, i))
    case More(c, rest) => G.More(Numbered(c, i), NumberedArgs(rest, i + |G.ChainTokens(c)| + 1))
  }

  function Relabelled(t: P.Token, i: nat): P.Token {
    if t.Atom? then P.Atom(Label(i)) else t
  }

  /** `toks` are `ts` with their atoms named by their places from `i` on. */
  ghost predicate Relabels(ts: seq<P.Token>, i: nat, toks: seq<P.Token>) {
    |toks| == |ts| && forall k :: 0 <= k < |ts| ==> toks[k] == Relabelled(ts[k], i + k)
  }

  lemma RelabelsJoin(a: seq<P.Token>, b: seq<P.Token>, i: nat, a': seq<P.Token>, b': seq<P.Token>)
    requires Relabels(a, i, a') && Relabels(b, i + |a|, b')
    ensures Relabels(a + b, i, a' + b')
  {
    hide Relabelled;
  }

  lemma RelabelsOne(t: P.Token, i: nat)
    requires !t.Atom?
    ensures Relabels([t], i, [t])
  {
  }

  lemma {:induction false} UnitRelabels(u: G.Unit, i: nat)
    requires G.UnitOK(u)
    ensures G.UnitOK(NumberedUnit(u, i)) && Relabels(G.UnitTokens(u), i, G.UnitTokens(NumberedUnit(u, i)))
    decreases u
  {
    hide Label, Relabels;
    match u {
      case AtomUnit(name) => AtomRelabels(name, i);
      case PrefixUnit(op, v) =>
        UnitRelabels(v, i + 1);
        RelabelsOne(P.UnaryOperator(op), i);
        var head := [P.UnaryOperator(op)];
        RelabelsJoin(head, G.UnitTokens(v), i, head, G.UnitTokens(NumberedUnit(v, i + 1)));
      case GroupUnit(c) =>
        ChainRelabels(c, i + 1);
        BracketRelabels(P.OpenGroup, G.ChainTokens(c), i, G.ChainTokens(Numbered(c, i + 1)));
      case CallUnit(name, arity, args) =>
        ArgsRelabel(args, i + 2);
        var f, a, a' := P.Function(name, arity), G.ArgsTokens(args), G.ArgsTokens(NumberedArgs(args, i + 2));
        BracketRelabels(P.OpenGroup, a, i + 1, a');
        RelabelsOne(f, i);
        RelabelsJoin([f], [P.OpenGroup] + a + [P.CloseGroup], i, [f], [P.OpenGroup] + a' + [P.CloseGroup]);
        assert G.UnitTokens(u) == [f] + ([P.OpenGroup] + a + [P.CloseGroup]);
        assert G.UnitTokens(NumberedUnit(u, i)) == [f] + ([P.OpenGroup] + a' + [P.CloseGroup]);
    }
  }

  lemma AtomRelabels(name: string, i: nat)
    ensures Relabels([P.Atom(name)], i, [P.Atom(Label(i))])
  {
  }

  lemma BracketRelabels(open: P.Token, a: seq<P.Token>, i: nat, a': seq<P.Token>)
    requires open.OpenGroup? && Relabels(a, i + 1, a')
    ensures Relabels([open] + a + [P.CloseGroup], i, [open] + a' + [P.CloseGroup])
  {
    RelabelsOne(open, i);
    RelabelsJoin([open], a, i, [open], a');
    RelabelsOne(P.CloseGroup, i + |[open] + a|);
    RelabelsJoin([open] + a, [P.CloseGroup], i, [open] + a', [P.CloseGroup]);
  }

  lemma BetweenRelabels(a: seq<P.Token>, t: P.Token, b: seq<P.Token>, i: nat, a': seq<P.Token>, b': seq<P.Token>)
    requires !t.Atom? && Relabels(a, i, a') && Relabels(b, i + |a| + 1, b')
    ensures Relabels(a + [t] + b, i, a' + [t] + b')
  {
    RelabelsOne(t, i + |a|);
    RelabelsJoin(a, [t], i, a', [t]);
    RelabelsJoin(a + [t], b, i, a' + [t], b');
  }

  lemma {:induction false} ChainRelabels(c: G.Chain, i: nat)
    requires G.ChainOK(c)
    ensures G.ChainOK(Numbered(c, i)) && Relabels(G.ChainTokens(c), i, G.ChainTokens(Numbered(c, i)))
    decreases c
  {
    hide Label, Relabels;
    match c {
      case One(u) => UnitRelabels(u, i);
      case Then(d, op, u) =>
        var j := i + |G.ChainTokens(d)| + 1;
        ChainRelabels(d, i);
        UnitRelabels(u, j);
        BetweenRelabels(G.ChainTokens(d), P.Operator(op), G.UnitTokens(u), i, G.ChainTokens(Numbered(d, i)),
            G.UnitTokens(NumberedUnit(u, j)));
    }
  }

  lemma {:induction false} ArgsRelabel(a: G.Args, i: nat)
    requires G.ArgsOK(a)
    ensures var b := NumberedArgs(a, i);
            && G.ArgsOK(b) && G.Count(b) == G.Count(a) && b.NoArgs? == a.NoArgs?
            && Relabels(G.ArgsTokens(a), i, G.ArgsTokens(b))
    decreases a
  {
    hide Label, Relabels;
    match a {
      case NoArgs => NoneRelabels(i);
      case Last(c) => ChainRelabels(c, i);
      case More(c, rest) =>
        var j := i + |G.ChainTokens(c)| + 1;
        ChainRelabels(c, i);
        ArgsRelabel(rest, j);
        BetweenRelabels(G.ChainTokens(c), P.Separator, G.ArgsTokens(rest), i, G.ChainTokens(Numbered(c, i)),
            G.ArgsTokens(NumberedArgs(rest, j)));
    }
  }

  lemma NoneRelabels(i: nat)
    ensures Relabels([], i, [])
  {
  }

  /** The parser's view of the tokens of a phrase. */
  lemma ParserTokens(ctx: Context, st: Style, ts: seq<P.Token>, toks: seq<P.Token>)
    requires Relabels(ts, 0, toks)
    ensures AllForParser(Lexemes(ctx, st, ts)) == toks
  {
    hide Label;
    forall k | 0 <= k < |ts| ensures AllForParser(Lexemes(ctx, st, ts))[k] == toks[k] {
      assert toks[k] == Relabelled(ts[k], 0 + k);
    }
  }

  // ---- The meaning of the text ---------------------------------------------------------------------------

  /** Atoms stand for numbers, or for what the context makes of names, strings and URLs. */
  function Spelled(m: Machine, st: Style): G.Binding {
    G.Binding(name => var t := SpelledToken(m.ctx, st.atom(name)); if t.Number? then Literal(t.n) else m.leaf(t),
              m.kind)
  }

  /** The tokens from `i` on are those of `ts`. */
  ghost predicate Holds(ctx: Context, st: Style, all: seq<Token>, i: nat, ts: seq<P.Token>) {
    i + |ts| <= |all| && forall k :: 0 <= k < |ts| ==> all[i + k] == Lexeme(ctx, st, ts[k])
  }

  lemma HoldsSplit(ctx: Context, st: Style, all: seq<Token>, i: nat, a: seq<P.Token>, b: seq<P.Token>)
    requires Holds(ctx, st, all, i, a + b)
    ensures Holds(ctx, st, all, i, a) && Holds(ctx, st, all, i + |a|, b)
  {
    hide Lexeme;
    forall k | 0 <= k < |a| ensures all[i + k] == Lexeme(ctx, st, a[k]) {
      assert (a + b)[k] == a[k];
    }
    forall k | 0 <= k < |b| ensures all[i + |a| + k] == Lexeme(ctx, st, b[k]) {
      assert (a + b)[|a| + k] == b[k] && all[i + (|a| + k)] == Lexeme(ctx, st, (a + b)[|a| + k]);
    }
  }

  lemma AtomResolves(m: Machine, st: Style, all: seq<Token>, i: nat, word: string)
    requires Holds(m.ctx, st, all, i, [P.Atom(word)])
    ensures Bound(m, all).atom(Label(i)) == Spelled(m, st).atom(word)
  {
    assert all[i + 0] == Lexeme(m.ctx, st, [P.Atom(word)][0]);
  }

  lemma {:induction false} UnitResolves(m: Machine, st: Style, all: seq<Token>, u: G.Unit, i: nat)
    requires Holds(m.ctx, st, all, i, G.UnitTokens(u))
    ensures G.Resolve(G.UnitTree(NumberedUnit(u, i)), Bound(m, all)) == G.Resolve(G.UnitTree(u), Spelled(m, st))
    decreases u
  {
    hide Label, Holds, Bound, Spelled;
    SameKinds(m, st, all);
    match u {
      case AtomUnit(name) => AtomResolves(m, st, all, i, name);
      case PrefixUnit(op, v) =>
        HoldsSplit(m.ctx, st, all, i, [P.UnaryOperator(op)], G.UnitTokens(v));
        UnitResolves(m, st, all, v, i + 1);
        OneResolves(P.Unary(op), G.UnitTree(NumberedUnit(v, i + 1)), Bound(m, all));
        OneResolves(P.Unary(op), G.UnitTree(v), Spelled(m, st));
      case GroupUnit(c) =>
        HoldsSplit(m.ctx, st, all, i, [P.OpenGroup] + G.ChainTokens(c), [P.CloseGroup]);
        HoldsSplit(m.ctx, st, all, i, [P.OpenGroup], G.ChainTokens(c));
        ChainResolves(m, st, all, c, i + 1);
        OneResolves(P.GroupOf, G.ChainTree(Numbered(c, i + 1)), Bound(m, all));
        OneResolves(P.GroupOf, G.ChainTree(c), Spelled(m, st));
      case CallUnit(name, arity, args) =>
        var head := [P.Function(name, arity), P.OpenGroup];
        HoldsSplit(m.ctx, st, all, i, head + G.ArgsTokens(args), [P.CloseGroup]);
        HoldsSplit(m.ctx, st, all, i, head, G.ArgsTokens(args));
        ArgsResolve(m, st, all, args, i + 2);
    }
  }

  lemma SameKinds(m: Machine, st: Style, all: seq<Token>)
    ensures Bound(m, all).kind == Spelled(m, st).kind
  {
  }

  lemma OneResolves(h: P.Head, t: P.Tree, b: G.Binding)
    ensures G.Resolve(P.Node(h, [t]), b) == Apply(if h.GroupOf? then Group else b.kind(h), [G.Resolve(t, b)])
  {
    assert G.ResolveAll([t], b) == [G.Resolve(t, b)];
  }

  lemma TwoResolve(h: P.Head, t: P.Tree, u: P.Tree, b: G.Binding)
    requires !h.GroupOf?
    ensures G.Resolve(P.Node(h, [t, u]), b) == Apply(b.kind(h), [G.Resolve(t, b), G.Resolve(u, b)])
  {
    assert G.ResolveAll([t, u], b) == [G.Resolve(t, b), G.Resolve(u, b)];
  }

  lemma {:induction false} ChainResolves(m: Machine, st: Style, all: seq<Token>, c: G.Chain, i: nat)
    requires Holds(m.ctx, st, all, i, G.ChainTokens(c))
    ensures G.Resolve(G.ChainTree(Numbered(c, i)), Bound(m, all)) == G.Resolve(G.ChainTree(c), Spelled(m, st))
    decreases c
  {
    hide Label, Holds, Bound, Spelled;
    SameKinds(m, st, all);
    match c {
      case One(u) => UnitResolves(m, st, all, u, i);
      case Then(d, op, u) =>
        var j := i + |G.ChainTokens(d)| + 1;
        HoldsSplit(m.ctx, st, all, i, G.ChainTokens(d) + [P.Operator(op)], G.UnitTokens(u));
        HoldsSplit(m.ctx, st, all, i, G.ChainTokens(d), [P.Operator(op)]);
        ChainResolves(m, st, all, d, i);
        UnitResolves(m, st, all, u, j);
        TwoResolve(P.Binary(op), G.ChainTree(Numbered(d, i)), G.UnitTree(NumberedUnit(u, j)), Bound(m, all));
        TwoResolve(P.Binary(op), G.ChainTree(d), G.UnitTree(u), Spelled(m, st));
    }
  }

  lemma {:induction false} ArgsResolve(m: Machine, st: Style, all: seq<Token>, a: G.Args, i: nat)
    requires Holds(m.ctx, st, all, i, G.ArgsTokens(a))
    ensures G.ResolveAll(G.ArgTrees(NumberedArgs(a, i)), Bound(m, all)) == G.ResolveAll(G.ArgTrees(a), Spelled(m, st))
    decreases a
  {
    hide Label, Holds, Bound, Spelled;
    match a {
      case NoArgs =>
      case Last(c) => ChainResolves(m, st, all, c, i);
      case More(c, rest) =>
        var j := i + |G.ChainTokens(c)| + 1;
        HoldsSplit(m.ctx, st, all, i, G.ChainTokens(c) + [P.Separator], G.ArgsTokens(rest));
        HoldsSplit(m.ctx, st, all, i, G.ChainTokens(c), [P.Separator]);
        ChainResolves(m, st, all, c, i);
        ArgsResolve(m, st, all, rest, j);
        FirstResolves(G.ChainTree(Numbered(c, i)), G.ArgTrees(NumberedArgs(rest, j)), Bound(m, all));
        FirstResolves(G.ChainTree(c), G.ArgTrees(rest), Spelled(m, st));
    }
  }

  lemma FirstResolves(t: P.Tree, ts: seq<P.Tree>, b: G.Binding)
    ensures G.ResolveAll([t] + ts, b) == [G.Resolve(t, b)] + G.ResolveAll(ts, b)
  {
    assert ([t] + ts)[1..] == ts;
  }

  /** Any phrase, written as text however its atoms are spelled and its words spaced, is parsed as the
      group of its left-nested tree. */
  lemma TextParses(m: Machine, st: Style, c: G.Chain, gaps: seq<string>, colons: nat)
    requires G.ChainOK(c) && AllKnown(m.ctx, st, G.ChainTokens(c)) && GapsOK(WordsOf(st, G.ChainTokens(c)), gaps)
    ensures |gaps| == |WordsOf(st, G.ChainTokens(c))|
    ensures Parse(m, Colons(colons) + Spread(WordsOf(st, G.ChainTokens(c)), gaps))
            == Some(Apply(Group, [G.Resolve(G.ChainTree(c), Spelled(m, st))]))
  {
    hide AllKnown, TokensOf, Operand, Label, Relabels, Holds, Bound, Spelled, Lexemes, P.ParseChain, Spread,
        WordsOf, GapsOK, AllForParser, Colons, Prepared;
    var ts := G.ChainTokens(c);
    ChainOperand(c);
    TextReads(m.ctx, st, ts, gaps, colons);
    ChainRelabels(c, 0);
    var d, all := Numbered(c, 0), Lexemes(m.ctx, st, ts);
    ParserTokens(m.ctx, st, ts, G.ChainTokens(d));
    WholeHolds(m.ctx, st, ts);
    ChainResolves(m, st, all, c, 0);
    assert G.ChainTokens(d)[0..|G.ChainTokens(d)|] == G.ChainTokens(d);
    G.ChainStops(d, G.ChainTokens(d), 0);
  }

  lemma WholeHolds(ctx: Context, st: Style, ts: seq<P.Token>)
    ensures Holds(ctx, st, Lexemes(ctx, st, ts), 0, ts)
  {
    hide Lexeme;
  }

  // ---- Trees as text -----------------------------------------------------------------------------------

  lemma {:induction false} PrintedTreeOK(t: P.Tree)
    requires G.TreeOK(t)
    ensures G.TreeOK(G.UnitTree(G.Print(t)))
    decreases t, 1
  {
    match t {
      case Leaf(_) =>
      case Node(h, args) =>
        match h {
          case Unary(_) => PrintedTreeOK(args[0]);
          case Binary(op) =>
            PrintedTreeOK(args[0]);
            PrintedTreeOK(args[1]);
            var c := G.Then(G.One(G.Print(args[0])), op, G.Print(args[1]));
            assert G.ChainTree(c.init) == G.UnitTree(G.Print(args[0]));
            assert G.TreeOK(G.ChainTree(c));
          case GroupOf =>
            PrintedTreeOK(args[0]);
            assert G.ChainTree(G.One(G.Print(args[0]))) == G.UnitTree(G.Print(args[0]));
          case Call(_, _) =>
            PrintedArgsOK(args);
            G.PrintArgsOK(args);
        }
    }
  }

  lemma {:induction false} PrintedArgsOK(ts: seq<P.Tree>)
    requires forall t :: t in ts ==> G.TreeOK(t)
    ensures forall t :: t in G.ArgTrees(G.PrintArgs(ts)) ==> G.TreeOK(t)
    decreases ts, 0
  {
    if ts != [] {
      PrintedTreeOK(ts[0]);
      PrintedArgsOK(ts[1..]);
      assert G.ChainTree(G.One(G.Print(ts[0]))) == G.UnitTree(G.Print(ts[0]));
    }
  }

  function TreeTokens(t: P.Tree): seq<P.Token>
    requires G.TreeOK(t)
  {
    G.UnitTokens(G.Print(t))
  }

  /** The text of a tree, printed with all parentheses, means what the tree means. */
  lemma PrintedMeans(m: Machine, st: Style, t: P.Tree, gaps: seq<string>, colons: nat, env: Env)
    requires G.TreeOK(t) && AllKnown(m.ctx, st, TreeTokens(t)) && GapsOK(WordsOf(st, TreeTokens(t)), gaps)
    ensures |gaps| == |WordsOf(st, TreeTokens(t))|
    ensures Meaning(m, Colons(colons) + Spread(WordsOf(st, TreeTokens(t)), gaps), env)
            == Denote(G.Resolve(t, Spelled(m, st)), env)
  {
    hide AllKnown, Spelled, Parse, GapsOK, WordsOf, Spread, Colons, G.Strip, G.Print, G.TreeOK, G.UnitTree,
        G.UnitTokens;
    var c, b := G.One(G.Print(t)), Spelled(m, st);
    G.PrintOK(t);
    OnePhrase(t);
    TextParses(m, st, c, gaps, colons);
    PrintedTreeOK(t);
    G.GroupsMeanNothing(t, b, env);
    G.GroupsMeanNothing(G.UnitTree(G.Print(t)), b, env);
    GroupDenotes(G.Resolve(G.ChainTree(c), b), env);
  }

  lemma OnePhrase(t: P.Tree)
    requires G.TreeOK(t)
    ensures var c := G.One(G.Print(t)); G.ChainTokens(c) == TreeTokens(t) && G.ChainTree(c) == G.UnitTree(G.Print(t))
  {
  }

  lemma GroupDenotes(e: Expr, env: Env)
    ensures Denote(Apply(Group, [e]), env) == Denote(e, env)
  {
  }
}
