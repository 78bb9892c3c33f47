/** From the text of an expression to the tokens the parser works on. */
module Lexing {
  import opened Chars
  import opened Wrappers
  import opened Folding

  // ---- Splitting the text ----------------------------------------------------------------------

  datatype CharType = Normal | Skip | Splitter | Single | Double

  const NUL := '\0'

  /** `cMathEqTokenizer` between two characters; `quote` is the open string's delimiter. */
  datatype LexState = LexState(prev: char, backslash: bool, quote: char, url: bool)

  const START := LexState(NUL, false, NUL, false)

  predicate IsQuote(c: char) {
    c == '"' || c == '\'' || c == '`'
  }

  /** Outside strings, URLs and escapes. */
  function PlainType(c: char, c2: char, prev: char): CharType {
    if IsSpace(c) then Splitter
    else if c == '-' || c == '+' then if prev != 'e' && prev != 'E' then Single else Normal
    else if c == '|' || c == '&' || c == '=' then if c2 == c then Double else Single
    else if c == '!' || c == '>' || c == '<' then if c2 == '=' then Double else Single
    else if c in ",()[]*/%^~?." then Single
    else Normal
  }

  /** `GetCharType`: the type of `c` before `c2`, and the state after it. */
  function CharStep(s: LexState, c: char, c2: char): (CharType, LexState) {
    if s.quote == '`' then (Normal, s.(prev := c))
    else if s.quote != NUL then
      (Normal, s.(prev := c, quote := if !s.backslash && IsQuote(c) then NUL else s.quote))
    else if s.url then
      if c == ')' || c == ',' || c == ']' then (Single, s.(prev := c, url := false))
      else if IsSpace(c) then (Splitter, s.(prev := c, url := false))
      else (Normal, s.(prev := c))
    else if c == '\\' then
      if s.backslash then (Normal, s.(prev := c, backslash := false)) else (Skip, s.(prev := c, backslash := true))
    else if c == '/' && s.prev == ':' then (Normal, s.(prev := c, backslash := false, url := true))
    else if IsQuote(c) then (Normal, s.(prev := c, backslash := false, quote := c))
    else
      var t := PlainType(c, c2, s.prev);
      (t, s.(prev := if t.Double? then c2 else c, backslash := false))
  }

  /** The words of `s`, `current` being what has been read of one. */
  function Lexed(state: LexState, s: string, current: string): seq<string>
    decreases |s|
  {
    if s == "" then NonEmpty(current)
    else
      var (t, next) := CharStep(state, s[0], if |s| > 1 then s[1] else NUL);
      match t
      case Normal => Lexed(next, s[1..], current + [s[0]])
      case Skip => Lexed(next, s[1..], current)
      case Splitter => NonEmpty(current) + Lexed(next, s[1..], "")
      case Single => NonEmpty(current) + [[s[0]]] + Lexed(next, s[1..], "")
      case Double =>
        if |s| == 1 then NonEmpty(current) + [[s[0]]]
        else NonEmpty(current) + [[s[0], s[1]]] + Lexed(next, s[2..], "")
  }

  class MathTokenizer {
    var state: LexState

    constructor ()
      ensures state == START
    {
      state := START;
    }

    /** The loop of `StringTokenize`. */
    method Words(s: string) returns (words: seq<string>)
      requires NUL !in s
      modifies this
      ensures words == Lexed(old(state), s, "")
    {
      hide CharStep;
      words := [];
      var current := "";
      var i := 0;
      assert s[0..] == s;
      while i < |s|
        invariant i <= |s|
        invariant words + Lexed(state, s[i..], current) == Lexed(old(state), s, "")
      {
        var c, c2 := s[i], if i + 1 < |s| then s[i + 1] else NUL;
        assert s[i..][1..] == s[i + 1..];
        assert i + 1 < |s| ==> s[i..][2..] == s[i + 2..] && s[i..][1] == c2;
        var (t, next) := CharStep(state, c, c2);
        state := next;
        i := i + 1;
        match t {
          case Normal =>
            current := current + [c];
          case Skip =>
          case Splitter =>
            words := words + NonEmpty(current);
            current := "";
          case Single =>
            words := words + NonEmpty(current) + [[c]];
            current := "";
          case Double =>
            words := words + NonEmpty(current) + [if i < |s| then [c, c2] else [c]];
            i := if i < |s| then i + 1 else i;
            current := "";
        }
      }
      words := words + NonEmpty(current);
    }
  }

  // ---- Classing the words ------------------------------------------------------------------------

  datatype EnumValue = EnumValue(name: string, value: nat)

  datatype EnumDef = EnumDef(name: string, values: seq<EnumValue>)

  /** What an expression context knows. How decimal numbers are read, a percentage is taken and an
      integer becomes a number is left to it. */
  datatype Context = Context(
    decimal: string -> Option<Num>,
    percent: Num -> Num,
    ofInt: nat -> Num,
    unary: set<string>,
    binary: set<string>,
    functions: map<string, Option<nat>>,
    enums: map<string, EnumDef>,
    defaultEnum: Option<EnumDef>)

  datatype Token =
    | Open
    | Close
    | Comma
    | Text(text: string)
    | Url(text: string)
    | UnaryOp(op: string)
    | BinaryOp(op: string)
    | Number(n: Num)
    | Call(name: string, arity: Option<nat>)
    | Name(name: string)

  const OPERATORS := {"+", "-", "*", "/", "!", "|", "^", "&", "~", "&&", "||", "!!", "==", "!=", ">", ">=", "<", "<="}

  /** The hexadecimal digits at the front of `s`. */
  function HexDigits(s: string): string {
    if s == "" || HexDigit(s[0]) == 16 then "" else [s[0]] + HexDigits(s[1..])
  }

  function HexValue(s: string, high: nat): nat {
    if s == "" then high else HexValue(s[1..], 16 * high + HexDigit(s[0]))
  }

  /** `ReadNumber`: up to eight hexadecimal digits after 0x, or what starts like a number. */
  function ReadNumber(ctx: Context, word: string): Option<Num> {
    if |word| >= 2 && word[0] == '0' && (word[1] == 'x' || word[1] == 'X') then
      var digits := HexDigits(word[2..]);
      if |digits| > 8 then None else Some(ctx.ofInt(HexValue(digits, 0)))
    else if word == "" || !(IsDigit(word[0]) || word[0] == '-' || word[0] == '.') then None
    else ctx.decimal(word)
  }

  /** Whether an operator after this token takes one operand. */
  predicate OperandNext(before: seq<Token>) {
    before == [] ||
    var t := before[|before| - 1];
    !(t.Name? || t.Number? || t.Text? || t.Url? || t.Close?)
  }

  function ValueIndex(values: seq<EnumValue>, name: string): (k: nat)
    ensures k <= |values|
    ensures k < |values| ==> values[k].name == name
    ensures forall i :: 0 <= i < k ==> values[i].name != name
  {
    if values == [] || values[0].name == name then 0 else 1 + ValueIndex(values[1..], name)
  }

  predicate ContainsUrl(word: string) {
    |word| >= 3 && (word[..3] == "://" || ContainsUrl(word[1..]))
  }

  function Trim(s: string, c: char): string {
    if s == "" then ""
    else if s[0] == c then Trim(s[1..], c)
    else if s[|s| - 1] == c then Trim(s[..|s| - 1], c)
    else s
  }

  /** The token that starts at word `i`, and the word after it. */
  function TokenAt(ctx: Context, words: seq<string>, i: nat, before: seq<Token>): (r: Option<(Token, nat)>)
    requires i < |words|
    ensures r.Some? ==> i < r.value.1 <= |words|
  {
    var word := words[i];
    if word == "" then None
    else if word == "(" || word == "[" then Some((Open, i + 1))
    else if word == ")" || word == "]" then Some((Close, i + 1))
    else if word == "," then Some((Comma, i + 1))
    else if IsQuote(word[0]) then Some((Text(Trim(word, word[0])), i + 1))
    else if ContainsUrl(word) then Some((Url(word), i + 1))
    else if word in OPERATORS then
      if OperandNext(before) then if word in ctx.unary then Some((UnaryOp(word), i + 1)) else None
      else if word in ctx.binary then Some((BinaryOp(word), i + 1)) else None
    else if word[0] == '.' || ReadNumber(ctx, word).Some? then NumberAt(ctx, words, i)
    else if i + 1 < |words| && words[i + 1] != "" && words[i + 1][0] == '(' && word in ctx.functions then
      Some((Call(word, ctx.functions[word]), i + 1))
    else if |word| >= 2 && word[0] == 'e' && 'A' <= word[1] <= 'Z' && word in ctx.enums then
      if i + 2 >= |words| || words[i + 1] != "." then None
      else
        var values := ctx.enums[word].values;
        var k := ValueIndex(values, words[i + 2]);
        if k == |values| then None else Some((Number(ctx.ofInt(values[k].value)), i + 3))
    else if ctx.defaultEnum.Some? then
      var values := ctx.defaultEnum.value.values;
      var k := ValueIndex(values, word);
      Some((if k == |values| then Name(word) else Number(ctx.ofInt(values[k].value)), i + 1))
    else Some((Name(word), i + 1))
  }

  /** A number, its dot and decimals being words of their own, maybe as a percentage. */
  function NumberAt(ctx: Context, words: seq<string>, i: nat): (r: Option<(Token, nat)>)
    requires i < |words| && words[i] != ""
    requires words[i][0] == '.' || ReadNumber(ctx, words[i]).Some?
    ensures r.Some? ==> i < r.value.1 <= |words|
  {
    var (text, next) :=
      if words[i][0] == '.' then if i + 1 < |words| then ("." + words[i + 1], i + 2) else ("", i + 1)
      else if i + 1 < |words| && words[i + 1] == "." then
        if i + 2 < |words| then (words[i] + "." + words[i + 2], i + 3) else (words[i] + ".", i + 2)
      else (words[i], i + 1);
    if text == "" then None
    else
      var n := ReadNumber(ctx, text);
      if n.None? then None
      else if next < |words| && words[next] == "%" then Some((Number(ctx.percent(n.value)), next + 1))
      else Some((Number(n.value), next))
  }

  /** All tokens from word `i` on, after those before. */
  function TokensFrom(ctx: Context, words: seq<string>, i: nat, before: seq<Token>): Option<seq<Token>>
    requires i <= |words|
    decreases |words| - i
  {
    if i == |words| then Some(before)
    else
      var t := TokenAt(ctx, words, i, before);
      if t.None? then None else TokensFrom(ctx, words, t.value.1, before + [t.value.0])
  }

  /** `TokenizeExpr`. */
  method TokenizeExpr(ctx: Context, text: string) returns (tokens: Option<seq<Token>>)
    requires NUL !in text
    ensures var words := Lexed(START, text, "");
            tokens == if words == [] then None else TokensFrom(ctx, words, 0, [])
  {
    hide TokenAt, Lexed;
    var tokenizer := new MathTokenizer();
    var words := tokenizer.Words(text);
    if words == [] {
      return None;
    }
    var out: seq<Token> := [];
    var i := 0;
    while i < |words|
      invariant i <= |words|
      invariant TokensFrom(ctx, words, i, out) == TokensFrom(ctx, words, 0, [])
    {
      var t := TokenAt(ctx, words, i, out);
      if t.None? {
        return None;
      }
      out := out + [t.value.0];
      i := t.value.1;
    }
    tokens := Some(out);
  }
}
