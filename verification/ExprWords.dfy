/** How the text of an expression splits into words: the words it was written from come back, whatever
    their kinds, wherever blanks are left out between two that do not run together. */
module ExprWords {
  import opened Chars
  import opened Lexing
  import opened EnumFlags

  // ---- Kinds of words ----------------------------------------------------------------------------------

  const SYMBOLS := {
    "(", ")", "[", "]", ",", "*", "/", "%", "^", "~", "?", ".", "-", "+", "|", "&", "=", "!", ">", "<",
    "||", "&&", "==", "!=", ">=", "<="
  }

  predicate IsSymbol(word: string) {
    word in SYMBOLS
  }

  /** A sign after an `e` belongs to a number such as 1e-5. */
  predicate PlainFrom(prev: char, word: string)
    decreases |word|
  {
    word == "" ||
    ((IsWordChar(word[0]) || (word[0] in "+-" && prev in "eE")) && PlainFrom(word[0], word[1..]))
  }

  /** Names and numbers. */
  predicate IsPlain(word: string) {
    word != "" && IsWordChar(word[0]) && PlainFrom(word[0], word[1..])
  }

  predicate NoQuotes(s: string) {
    forall i :: 0 <= i < |s| ==> s[i] != '"' && s[i] != '\'' && s[i] != '`'
  }

  function QuotedWord(open: char, body: string, close: char): string {
    [open] + body + [close]
  }

  /** Any kind of quote ends a string that a single or double quote begins. */
  ghost predicate IsQuoted(word: string) {
    exists open, body, close ::
      open in "\"'" && close in "\"'`" && NoQuotes(body) && word == QuotedWord(open, body, close)
  }

  /** Space, tab, new line, vertical tab, form feed and carriage return. */
  predicate IsBlank(c: char) {
    c in " \t\n\r" || c == 11 as char || c == 12 as char
  }

  predicate AllBlank(s: string) {
    forall i :: 0 <= i < |s| ==> IsBlank(s[i])
  }

  predicate EndsLink(c: char) {
    c in "),]" || IsBlank(c)
  }

  predicate InLink(s: string) {
    forall i :: 0 <= i < |s| ==> !EndsLink(s[i])
  }

  function LinkWord(scheme: string, rest: string): string {
    scheme + "://" + rest
  }

  ghost predicate IsLink(word: string) {
    exists scheme, rest :: IsWord(scheme) && InLink(rest) && word == LinkWord(scheme, rest)
  }

  ghost predicate IsWhole(word: string) {
    IsSymbol(word) || IsPlain(word) || IsQuoted(word) || IsLink(word)
  }

  // ---- Neighbours --------------------------------------------------------------------------------------

  /** The character continues the number or begins the URL that what is before it has begun. */
  predicate Glued(prev: char, c: char) {
    (c in "+-" && prev in "eE") || (c == '/' && prev == ':')
  }

  const DOUBLES := {"||", "&&", "==", "!=", ">=", "<="}

  /** The character makes one symbol with the word before it. */
  predicate Doubles(word: string, c: char) {
    word + [c] in DOUBLES
  }

  /** No blank is needed between the two. */
  ghost predicate MayTouch(word: string, next: string) {
    && word != "" && next != ""
    && if IsSymbol(word) then !Doubles(word, next[0])
       else if IsLink(word) then IsSymbol(next) && EndsLink(next[0])
       else IsSymbol(next) && !Glued(word[|word| - 1], next[0])
  }

  /** The words, each followed by its gap. */
  function Spread(words: seq<string>, gaps: seq<string>): string
    requires |gaps| == |words|
  {
    if words == [] then "" else words[0] + (gaps[0] + Spread(words[1..], gaps[1..]))
  }

  ghost predicate AllWhole(words: seq<string>) {
    forall i :: 0 <= i < |words| ==> words[i] != "" && IsWhole(words[i])
  }

  /** Gaps are blank, and between words that would run together not empty. */
  ghost predicate GapsOK(words: seq<string>, gaps: seq<string>) {
    && |gaps| == |words|
    && (forall i :: 0 <= i < |words| ==> AllBlank(gaps[i]))
    && forall i :: 0 <= i < |words| - 1 ==> gaps[i] != "" || MayTouch(words[i], words[i + 1])
  }

  // ---- One step of the machine ---------------------------------------------------------------------------

  /** Between two words: not in a string or after a backslash, maybe still in a URL. */
  predicate Between(s: LexState) {
    !s.backslash && s.quote == NUL
  }

  /** What comes next is read as it would be at the start. */
  predicate Ready(s: LexState, rest: string) {
    Clean(s) && (rest != "" ==> !Glued(s.prev, rest[0]))
  }

  lemma BlankStep(state: LexState, c: char, rest: string, current: string)
    requires Between(state) && IsBlank(c)
    ensures Lexed(state, [c] + rest, current)
            == NonEmpty(current) + Lexed(state.(prev := c, url := false), rest, "")
  {
    assert ([c] + rest)[1..] == rest;
  }

  /** After blanks nothing of what was before matters. */
  lemma {:induction false} BlanksStep(state: LexState, gap: string, rest: string, current: string)
      returns (next: LexState)
    requires Between(state) && AllBlank(gap) && gap != ""
    ensures Clean(next) && Ready(next, rest)
    ensures Lexed(state, gap + rest, current) == NonEmpty(current) + Lexed(next, rest, "")
    decreases |gap|
  {
    hide Lexed;
    next := state.(prev := gap[0], url := false);
    assert gap + rest == [gap[0]] + (gap[1..] + rest) && IsBlank(gap[0]);
    BlankStep(state, gap[0], gap[1..] + rest, current);
    if |gap| > 1 {
      var first := next;
      next := BlanksStep(first, gap[1..], rest, "");
      assert NonEmpty("") + Lexed(next, rest, "") == Lexed(next, rest, "");
    } else {
      assert gap[1..] + rest == rest;
    }
  }

  lemma NormalStep(state: LexState, c: char, rest: string, current: string)
    requires CharStep(state, c, if rest == "" then NUL else rest[0]).0.Normal?
    ensures Lexed(state, [c] + rest, current) ==
            Lexed(CharStep(state, c, if rest == "" then NUL else rest[0]).1, rest, current + [c])
  {
    hide CharStep;
    assert ([c] + rest)[1..] == rest;
  }

  lemma SingleSymbol(state: LexState, c: char, c2: char)
    requires IsSymbol([c]) && Ready(state, [c]) && !Doubles([c], c2)
    ensures CharStep(state, c, c2) == (Single, state.(prev := c))
  {
    assert [c] + [c2] == [c, c2];
  }

  lemma DoubleSymbol(state: LexState, c: char, c2: char)
    requires IsSymbol([c, c2]) && Clean(state)
    ensures CharStep(state, c, c2) == (Double, state.(prev := c2))
  {
  }

  /** A symbol that the next character does not continue is a word. */
  lemma SymbolStep(state: LexState, word: string, rest: string)
    requires IsSymbol(word) && Ready(state, word) && (rest != "" ==> !Doubles(word, rest[0]))
    ensures var next := state.(prev := word[|word| - 1]);
            Clean(next) && Lexed(state, word + rest, "") == [word] + Lexed(next, rest, "")
  {
    hide CharStep, Doubles;
    var s := word + rest;
    SymbolLast(word);
    NoDouble(word, NUL);
    if |word| == 1 {
      assert s[1..] == rest && [s[0]] == word;
      SingleSymbol(state, word[0], if |s| > 1 then s[1] else NUL);
    } else {
      assert s[2..] == rest && [s[0], s[1]] == word;
      DoubleSymbol(state, s[0], s[1]);
    }
  }

  lemma SymbolLast(word: string)
    requires IsSymbol(word)
    ensures 1 <= |word| <= 2 && word[|word| - 1] !in "eE:"
  {
  }

  lemma DoublesEnd(word: string, c: char)
    requires Doubles(word, c)
    ensures c in "|&="
  {
    assert (word + [c])[|word|] == c;
  }

  /** Neither a blank nor the end of the text continues a symbol. */
  lemma NoDouble(word: string, c: char)
    requires c == NUL || IsBlank(c)
    ensures !Doubles(word, c)
  {
    hide Doubles;
    if Doubles(word, c) {
      DoublesEnd(word, c);
    }
  }

  /** The symbol after it ends a word. */
  lemma SymbolEnds(state: LexState, symbol: string, rest: string, current: string)
    requires Between(state) && IsSymbol(symbol) && symbol <= rest
    requires if state.url then EndsLink(symbol[0]) else !Glued(state.prev, symbol[0])
    ensures Lexed(state, rest, current) == NonEmpty(current) + Lexed(state.(url := false), rest, "")
  {
    hide CharStep, Glued, EndsLink;
    var c, c2 := rest[0], if |rest| > 1 then rest[1] else NUL;
    SymbolFirst(symbol);
    assert rest[0] == symbol[0];
    EndingStep(state, c, c2);
  }

  lemma SymbolFirst(symbol: string)
    requires IsSymbol(symbol)
    ensures symbol[0] in "()[],*/%^~?.-+|&=!><"
  {
  }

  lemma EndingStep(state: LexState, c: char, c2: char)
    requires Between(state) && c in "()[],*/%^~?.-+|&=!><"
    requires if state.url then EndsLink(c) else !Glued(state.prev, c)
    ensures CharStep(state, c, c2) == CharStep(state.(url := false), c, c2)
    ensures CharStep(state, c, c2).0 in {Single, Double}
  {
    hide PlainType;
    EndingType(c, c2, state.prev);
    if state.url {
      assert c == ')' || c == ']' || c == ',';
    } else {
      assert state.(url := false) == state;
    }
  }

  lemma EndingType(c: char, c2: char, prev: char)
    requires c in "()[],*/%^~?.-+|&=!><"
    ensures c != '\\' && !IsQuote(c) && !IsSpace(c)
    ensures c in "),]" || !(c in "+-" && prev in "eE") ==> PlainType(c, c2, prev) in {Single, Double}
    ensures c in "),]" ==> PlainType(c, c2, prev) == Single
  {
  }

  // ---- Words of the other kinds --------------------------------------------------------------------------

  lemma PlainStep(state: LexState, c: char, c2: char)
    requires Clean(state) && (IsWordChar(c) || (c in "+-" && state.prev in "eE"))
    ensures CharStep(state, c, c2) == (CharType.Normal, state.(prev := c))
  {
  }

  lemma {:induction false} LexPlain(state: LexState, word: string, rest: string, current: string)
      returns (next: LexState)
    requires Clean(state) && PlainFrom(state.prev, word)
    ensures Clean(next) && next.prev == (if word == "" then state.prev else word[|word| - 1])
    ensures Lexed(state, word + rest, current) == Lexed(next, rest, current + word)
    decreases |word|
  {
    hide CharStep, Lexed, IsWordChar;
    next := state;
    if word == "" {
      assert word + rest == rest && current + word == current;
    } else {
      assert word + rest == [word[0]] + (word[1..] + rest);
      PlainStep(state, word[0], if word[1..] + rest == "" then NUL else (word[1..] + rest)[0]);
      NormalStep(state, word[0], word[1..] + rest, current);
      next := LexPlain(state.(prev := word[0]), word[1..], rest, current + [word[0]]);
      assert current + [word[0]] + word[1..] == current + word;
    }
  }

  lemma {:induction false} LexBody(state: LexState, body: string, rest: string, current: string)
      returns (next: LexState)
    requires state.quote in "\"'" && NoQuotes(body) && !state.backslash && !state.url
    ensures next == state.(prev := next.prev)
    ensures Lexed(state, body + rest, current) == Lexed(next, rest, current + body)
    decreases |body|
  {
    hide Lexed;
    next := state;
    if body == "" {
      assert body + rest == rest && current + body == current;
    } else {
      assert body + rest == [body[0]] + (body[1..] + rest);
      NormalStep(state, body[0], body[1..] + rest, current);
      next := LexBody(state.(prev := body[0]), body[1..], rest, current + [body[0]]);
      assert current + [body[0]] + body[1..] == current + body;
    }
  }

  lemma LexQuoted(state: LexState, open: char, body: string, close: char, rest: string) returns (next: LexState)
    requires Clean(state) && open in "\"'" && close in "\"'`" && NoQuotes(body)
    ensures Clean(next) && next.prev == close
    ensures Lexed(state, QuotedWord(open, body, close) + rest, "")
            == Lexed(next, rest, QuotedWord(open, body, close))
  {
    hide Lexed;
    var inside := state.(prev := open, quote := open);
    assert QuotedWord(open, body, close) + rest == [open] + (body + ([close] + rest));
    NormalStep(state, open, body + ([close] + rest), "");
    assert "" + [open] == [open];
    next := LexBody(inside, body, [close] + rest, [open]);
    NormalStep(next, close, rest, [open] + body);
    next := state.(prev := close);
  }

  lemma {:induction false} LexLinkRest(state: LexState, s: string, rest: string, current: string)
      returns (next: LexState)
    requires state.url && Between(state) && InLink(s)
    ensures next == state.(prev := next.prev)
    ensures Lexed(state, s + rest, current) == Lexed(next, rest, current + s)
    decreases |s|
  {
    hide Lexed;
    next := state;
    if s == "" {
      assert s + rest == rest && current + s == current;
    } else {
      assert s + rest == [s[0]] + (s[1..] + rest);
      assert !EndsLink(s[0]);
      NormalStep(state, s[0], s[1..] + rest, current);
      next := LexLinkRest(state.(prev := s[0]), s[1..], rest, current + [s[0]]);
      assert current + [s[0]] + s[1..] == current + s;
    }
  }

  lemma LexLink(state: LexState, scheme: string, tail: string, rest: string) returns (next: LexState)
    requires Clean(state) && IsWord(scheme) && InLink(tail)
    ensures Between(next) && next.url
    ensures Lexed(state, LinkWord(scheme, tail) + rest, "") == Lexed(next, rest, LinkWord(scheme, tail))
  {
    hide Lexed, IsWordChar;
    var after := "//" + (tail + rest);
    assert LinkWord(scheme, tail) + rest == scheme + (":" + after) && "" + scheme == scheme;
    next := LexWord(state, scheme, ":" + after, "");
    NormalStep(next, ':', after, scheme);
    assert after == "/" + ("/" + (tail + rest));
    NormalStep(next.(prev := ':'), '/', "/" + (tail + rest), scheme + ":");
    NormalStep(next.(prev := '/', url := true), '/', tail + rest, scheme + ":" + "/");
    assert scheme + ":" + "/" + "/" == scheme + "://";
    next := LexLinkRest(next.(prev := '/', url := true), tail, rest, scheme + "://");
  }

  /** A word that is no symbol is gathered up to its end. */
  lemma LexOther(state: LexState, word: string, rest: string) returns (next: LexState)
    requires Clean(state) && IsWhole(word) && !IsSymbol(word)
    ensures word != "" && Between(next) && Lexed(state, word + rest, "") == Lexed(next, rest, word)
    ensures next.url <==> IsLink(word)
    ensures !next.url ==> next.prev == word[|word| - 1]
  {
    hide Lexed, IsWordChar, CharStep;
    if IsPlain(word) {
      PlainIsNoLink(word);
      next := LexFirst(state, word, rest);
    } else if IsQuoted(word) {
      QuotedIsNoLink(word);
      var open, body, close :|
        open in "\"'" && close in "\"'`" && NoQuotes(body) && word == QuotedWord(open, body, close);
      next := LexQuoted(state, open, body, close, rest);
    } else {
      var scheme, tail :| IsWord(scheme) && InLink(tail) && word == LinkWord(scheme, tail);
      next := LexLink(state, scheme, tail, rest);
    }
  }

  lemma LexFirst(state: LexState, word: string, rest: string) returns (next: LexState)
    requires Clean(state) && IsPlain(word)
    ensures Clean(next) && next.prev == word[|word| - 1] && Lexed(state, word + rest, "") == Lexed(next, rest, word)
  {
    hide Lexed, IsWordChar, CharStep;
    assert PlainFrom(state.prev, word) && "" + word == word;
    next := LexPlain(state, word, rest, "");
  }

  lemma {:induction false} PlainNoColon(prev: char, word: string)
    requires PlainFrom(prev, word)
    ensures ':' !in word
    decreases |word|
  {
    if word != "" {
      PlainNoColon(word[0], word[1..]);
      assert word == [word[0]] + word[1..];
    }
  }

  lemma PlainIsNoLink(word: string)
    requires IsPlain(word)
    ensures !IsLink(word)
  {
    PlainNoColon(word[0], word[1..]);
    assert word == [word[0]] + word[1..];
    forall scheme: string, rest: string ensures word != LinkWord(scheme, rest) {
      assert LinkWord(scheme, rest)[|scheme|] == ':';
    }
  }

  lemma QuotedIsNoLink(word: string)
    requires IsQuoted(word)
    ensures !IsLink(word)
  {
    forall scheme: string, rest: string ensures IsWord(scheme) ==> word != LinkWord(scheme, rest) {
      if IsWord(scheme) {
        assert LinkWord(scheme, rest)[0] == scheme[0] && IsWordChar(scheme[0]);
      }
    }
  }

  // ---- Whole texts ---------------------------------------------------------------------------------------

  lemma SpreadStart(words: seq<string>, gaps: seq<string>)
    requires |gaps| == |words| && words != [] && words[0] != ""
    ensures words[0] <= Spread(words, gaps) && Spread(words, gaps)[0] == words[0][0]
  {
  }

  lemma NothingLeft(state: LexState, current: string)
    ensures Lexed(state, "", current) == NonEmpty(current)
  {
  }

  lemma RestOK(words: seq<string>, gaps: seq<string>)
    requires AllWhole(words) && GapsOK(words, gaps) && words != []
    ensures AllWhole(words[1..]) && GapsOK(words[1..], gaps[1..])
    ensures AllBlank(gaps[0]) && (gaps[0] == "" && |words| > 1 ==> MayTouch(words[0], words[1]))
  {
    hide IsWhole, MayTouch;
    forall i | 0 <= i < |words| - 1 ensures words[1..][i] == words[i + 1] {
    }
  }

  /** However they are spaced, the words of a text are those it was written from. */
  lemma {:induction false} LexSpread(state: LexState, words: seq<string>, gaps: seq<string>)
    requires AllWhole(words) && GapsOK(words, gaps) && Clean(state)
    requires words != [] ==> Ready(state, words[0])
    ensures Lexed(state, Spread(words, gaps), "") == words
    decreases |words|, 1
  {
    hide CharStep, IsWordChar, Lexed, IsSymbol, IsWhole, MayTouch, AllWhole, GapsOK;
    LengthsOK(words, gaps);
    if words == [] {
      NothingLeft(state, "");
    } else {
      RestOK(words, gaps);
      FirstWhole(words);
      assert Spread(words, gaps) == words[0] + (gaps[0] + Spread(words[1..], gaps[1..]));
      if IsSymbol(words[0]) {
        LexSymbol(state, words, gaps);
      } else {
        LexWhole(state, words, gaps);
      }
      assert [words[0]] + words[1..] == words;
    }
  }

  lemma LengthsOK(words: seq<string>, gaps: seq<string>)
    requires GapsOK(words, gaps)
    ensures |gaps| == |words|
  {
  }

  lemma FirstWhole(words: seq<string>)
    requires AllWhole(words) && words != []
    ensures words[0] != "" && IsWhole(words[0])
  {
  }

  /** What is ready for a text is ready for its first word. */
  lemma FirstReady(words: seq<string>, gaps: seq<string>)
    requires AllWhole(words) && GapsOK(words, gaps) && words != []
    ensures words[0] != "" && |gaps| == |words| && Spread(words, gaps) != "" && Spread(words, gaps)[0] == words[0][0]
  {
    LengthsOK(words, gaps);
    FirstWhole(words);
    SpreadStart(words, gaps);
  }

  lemma {:induction false} LexSymbol(state: LexState, words: seq<string>, gaps: seq<string>)
    requires AllWhole(words) && GapsOK(words, gaps) && words != [] && IsSymbol(words[0]) && Ready(state, words[0])
    ensures |gaps| == |words|
    ensures Lexed(state, words[0] + (gaps[0] + Spread(words[1..], gaps[1..])), "") == [words[0]] + words[1..]
    decreases |words|, 0
  {
    hide CharStep, IsWordChar, Lexed, IsSymbol, IsWhole, AllWhole, GapsOK, Doubles;
    LengthsOK(words, gaps);
    RestOK(words, gaps);
    FirstWhole(words);
    var word, rest := words[0], Spread(words[1..], gaps[1..]);
    var next := state.(prev := word[|word| - 1]);
    SymbolLast(word);
    if words[1..] != [] {
      FirstReady(words[1..], gaps[1..]);
    }
    if gaps[0] != "" {
      assert (gaps[0] + rest)[0] == gaps[0][0] && IsBlank(gaps[0][0]);
      NoDouble(word, gaps[0][0]);
      SymbolStep(state, word, gaps[0] + rest);
      next := BlanksStep(next, gaps[0], rest, "");
      LexSpread(next, words[1..], gaps[1..]);
    } else {
      assert gaps[0] + rest == rest;
      if words[1..] != [] {
        FirstWhole(words[1..]);
        SpreadStart(words[1..], gaps[1..]);
        assert words[1..][0] == words[1];
      }
      SymbolStep(state, word, rest);
      LexSpread(next, words[1..], gaps[1..]);
    }
  }

  lemma {:induction false} LexWhole(state: LexState, words: seq<string>, gaps: seq<string>)
    requires AllWhole(words) && GapsOK(words, gaps) && words != [] && !IsSymbol(words[0]) && Clean(state)
    ensures |gaps| == |words|
    ensures Lexed(state, words[0] + (gaps[0] + Spread(words[1..], gaps[1..])), "") == [words[0]] + words[1..]
    decreases |words|, 0
  {
    hide CharStep, IsWordChar, Lexed, IsSymbol, IsWhole, AllWhole, GapsOK, IsLink;
    LengthsOK(words, gaps);
    RestOK(words, gaps);
    FirstWhole(words);
    var word, rest := words[0], Spread(words[1..], gaps[1..]);
    var next := LexOther(state, word, gaps[0] + rest);
    if words[1..] != [] {
      FirstReady(words[1..], gaps[1..]);
    }
    if gaps[0] != "" {
      next := BlanksStep(next, gaps[0], rest, word);
      LexSpread(next, words[1..], gaps[1..]);
    } else {
      assert gaps[0] + rest == rest;
      if words[1..] == [] {
        NothingLeft(next, word);
      } else {
        FirstWhole(words[1..]);
        SpreadStart(words[1..], gaps[1..]);
        assert words[1..][0] == words[1];
        SymbolEnds(next, words[1], rest, word);
        LexSpread(next.(url := false), words[1..], gaps[1..]);
      }
    }
  }

  // ---- Backslashes and backquotes ------------------------------------------------------------------------

  /** A backslash is dropped, and two are one. */
  lemma BackslashReads(state: LexState, c: char, rest: string, current: string)
    requires Clean(state)
    ensures Lexed(state, "\\\\" + rest, current) == Lexed(state.(prev := '\\'), rest, current + "\\")
    ensures c != '\\' ==> Lexed(state, "\\" + ([c] + rest), current)
                          == Lexed(state.(prev := '\\'), [c] + rest, current)
  {
  }

  /** A backquote makes the remainder of the text a string. */
  lemma {:induction false} BackquoteTakesAll(state: LexState, rest: string, current: string)
    requires Clean(state)
    ensures Lexed(state, "`" + rest, current) == [current + "`" + rest]
  {
    NormalStep(state, '`', rest, current);
    InBackquote(state.(prev := '`', quote := '`'), rest, current + "`");
  }

  lemma {:induction false} InBackquote(state: LexState, rest: string, current: string)
    requires state.quote == '`' && current != ""
    ensures Lexed(state, rest, current) == [current + rest]
    decreases |rest|
  {
    if rest == "" {
      assert current + rest == current;
    } else {
      InBackquote(state.(prev := rest[0]), rest[1..], current + [rest[0]]);
      assert current + [rest[0]] + rest[1..] == current + rest;
    }
  }
}
