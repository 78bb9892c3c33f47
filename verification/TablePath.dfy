/** Paths in trees of data tables: how a path string is read, what it leads to, and the creation of
    what is missing. */
module TablePaths {
  import opened Chars
  import opened Wrappers

  // ---- Path strings ------------------------------------------------------------------------------

  datatype PathOp = Root | Parent | Current | Child(name: string) | Prop(name: string)

  datatype CharType = Normal | Splitter | SplitterAndToken

  /** `cDataTablePathParserTokenizer`: only a leading slash is a token. */
  function TypeOf(c: char, first: bool): CharType {
    if c == '/' || c == '\\' then if first then SplitterAndToken else Splitter
    else if c == '@' || c == ',' then SplitterAndToken
    else Normal
  }

  /** The tokens of `s`, `current` being what has been read of a token. */
  function Tokens(s: string, current: string, first: bool): seq<string> {
    if s == "" then NonEmpty(current)
    else
      match TypeOf(s[0], first)
      case Normal => Tokens(s[1..], current + [s[0]], false)
      case Splitter => NonEmpty(current) + Tokens(s[1..], "", false)
      case SplitterAndToken => NonEmpty(current) + [[s[0]]] + Tokens(s[1..], "", false)
  }

  /** The tokenizer and the loop that asks it. */
  class Tokenizer {
    var firstChar: bool

    constructor ()
      ensures firstChar
    {
      firstChar := true;
    }

    method GetCharType(c: char) returns (t: CharType)
      modifies this
      ensures t == TypeOf(c, old(firstChar)) && !firstChar
    {
      t := Normal;
      if c == '/' || c == '\\' {
        t := if firstChar then SplitterAndToken else Splitter;
      } else if c == '@' || c == ',' {
        t := SplitterAndToken;
      }
      firstChar := false;
    }

    method StringTokenize(s: string) returns (tokens: seq<string>)
      modifies this
      ensures tokens == Tokens(s, "", old(firstChar))
    {
      tokens := [];
      var current := "";
      var i := 0;
      while i < |s|
        invariant i <= |s|
        invariant Tokens(s, "", old(firstChar)) == tokens + Tokens(s[i..], current, firstChar)
      {
        var c := s[i];
        assert s[i..][1..] == s[i + 1..];
        var t := GetCharType(c);
        match t {
          case Normal =>
            current := current + [c];
          case Splitter =>
            tokens := tokens + NonEmpty(current);
            current := "";
          case SplitterAndToken =>
            tokens := tokens + NonEmpty(current) + [[c]];
            current := "";
        }
        i := i + 1;
      }
      tokens := tokens + NonEmpty(current);
    }
  }

  function Trimmed(s: string): string {
    if s == "" then ""
    else if IsSpace(s[0]) then Trimmed(s[1..])
    else if IsSpace(s[|s| - 1]) then Trimmed(s[..|s| - 1])
    else s
  }

  predicate AllSpace(s: string) {
    forall i :: 0 <= i < |s| ==> IsSpace(s[i])
  }

  /** Blanks around a text are taken off, and nothing else. */
  lemma {:induction false} TrimmedIs(before: string, core: string, after: string)
    requires AllSpace(before) && AllSpace(after)
    requires core != "" ==> !IsSpace(core[0]) && !IsSpace(core[|core| - 1])
    ensures Trimmed(before + core + after) == core
    decreases |before| + |after|
  {
    var s := before + core + after;
    if before != "" {
      assert s[1..] == before[1..] + core + after;
      TrimmedIs(before[1..], core, after);
    } else if after != "" && core != "" {
      assert s[..|s| - 1] == before + core + after[..|after| - 1];
      TrimmedIs(before, core, after[..|after| - 1]);
    } else if after != "" {
      assert s[1..] == before + core + after[1..];
      TrimmedIs(before, core, after[1..]);
    } else {
      assert s == core;
    }
  }

  /** The operation of a token that does not announce a property. */
  function OpOf(token: string): PathOp {
    if token == "/" || token == "\\" then Root
    else if token == ".." then Parent
    else if token == "." then Current
    else Child(token)
  }

  /** The operations of a path. An error leaves those read before it; the one caller does not look at
      the flag. */
  function OpsOf(tokens: seq<string>): (r: (seq<PathOp>, bool)) {
    if tokens == [] then ([], true)
    else if tokens[0] == "@" then
      if |tokens| == 1 then ([], false) else ([Prop(tokens[1])], |tokens| == 2)
    else
      var (ops, ok) := OpsOf(tokens[1..]);
      ([OpOf(tokens[0])] + ops, ok)
  }

  lemma OpsStep(tokens: seq<string>, i: nat)
    requires i < |tokens|
    ensures tokens[i] != "@" ==>
      OpsOf(tokens[i..]) == ([OpOf(tokens[i])] + OpsOf(tokens[i + 1..]).0, OpsOf(tokens[i + 1..]).1)
    ensures tokens[i] == "@" ==>
      OpsOf(tokens[i..]) == if i + 1 == |tokens| then ([], false) else ([Prop(tokens[i + 1])], i + 2 == |tokens|)
  {
    assert tokens[i..][1..] == tokens[i + 1..];
  }

  lemma Assembled(done: seq<PathOp>, op: PathOp, rest: seq<PathOp>)
    ensures done + ([op] + rest) == done + [op] + rest && done + [] == done && [] + done == done
  {
  }

  /** `ParseDataTablePathOp`. */
  method ParsePath(path: string) returns (ops: seq<PathOp>, ok: bool)
    ensures (ops, ok) == OpsOf(Tokens(Trimmed(path), "", true))
  {
    var tokenizer := new Tokenizer();
    var tokens := tokenizer.StringTokenize(Trimmed(path));
    ops := [];
    var i := 0;
    assert tokens[0..] == tokens;
    assert tokens[|tokens|..] == [] && OpsOf([]) == ([], true);
    hide Tokens, Trimmed, OpsOf;
    Assembled(OpsOf(tokens).0, Root, []);
    while i < |tokens|
      invariant i <= |tokens|
      invariant OpsOf(tokens) == (ops + OpsOf(tokens[i..]).0, OpsOf(tokens[i..]).1)
    {
      var token := tokens[i];
      OpsStep(tokens, i);
      Assembled(ops, OpOf(token), OpsOf(tokens[i + 1..]).0);
      if token == "/" || token == "\\" {
        ops := ops + [Root];
      } else if token == "@" {
        i := i + 1;
        if i == |tokens| {
          return ops, false;
        }
        ops := ops + [Prop(tokens[i])];
        i := i + 1;
        if i != |tokens| {
          return ops, false;
        }
        return ops, true;
      } else if token == ".." {
        ops := ops + [Parent];
      } else if token == "." {
        ops := ops + [Current];
      } else {
        ops := ops + [Child(token)];
      }
      i := i + 1;
    }
    Assembled(ops, Root, []);
    ok := true;
  }

  /** A name that is one token of a path and no operation of its own. */
  predicate IsToken(name: string) {
    && name != "" && name != "." && name != ".."
    && forall i :: 0 <= i < |name| ==> TypeOf(name[i], false) == Normal && !IsSpace(name[i])
  }

  /** The absolute path of a table and maybe one of its properties, as `GetRootPathToDataTable` writes
      it: the names below the root, and the property after an at sign. */
  function PathText(names: seq<string>, prop: Option<string>): string {
    if names == [] then "/" + Tail(prop) else Slashed(names) + Tail(prop)
  }

  function Tail(prop: Option<string>): string {
    if prop.None? then "" else "@" + prop.value
  }

  function Slashed(names: seq<string>): string {
    if names == [] then "" else "/" + names[0] + Slashed(names[1..])
  }

  function PathOps(names: seq<string>, prop: Option<string>): seq<PathOp> {
    [Root] + Steps(names, prop)
  }

  function Steps(names: seq<string>, prop: Option<string>): seq<PathOp> {
    if names == [] then if prop.None? then [] else [Prop(prop.value)]
    else [Child(names[0])] + Steps(names[1..], prop)
  }

  lemma {:induction false} PlainTokens(name: string, s: string, current: string)
    requires forall i :: 0 <= i < |name| ==> TypeOf(name[i], false) == Normal
    ensures Tokens(name + s, current, false) == Tokens(s, current + name, false)
    decreases |name|
  {
    if name == "" {
      assert name + s == s && current + name == current;
    } else {
      assert (name + s)[1..] == name[1..] + s;
      PlainTokens(name[1..], s, current + [name[0]]);
      assert current + [name[0]] + name[1..] == current + name;
    }
  }

  function NameTokens(names: seq<string>, prop: Option<string>): seq<string> {
    names + if prop.None? then [] else ["@", prop.value]
  }

  lemma SlashStep(s: string, current: string)
    requires s != "" && s[0] == '/'
    ensures Tokens(s, current, false) == NonEmpty(current) + Tokens(s[1..], "", false)
    ensures Tokens(s, "", true) == ["/"] + Tokens(s[1..], "", false)
  {
  }

  lemma TailTokens(prop: Option<string>, current: string)
    requires prop.Some? ==> IsToken(prop.value)
    ensures Tokens(Tail(prop), current, false) == NonEmpty(current) + NameTokens([], prop)
  {
    if prop.Some? {
      assert Tail(prop)[1..] == prop.value + "";
      PlainTokens(prop.value, "", "");
      assert "" + prop.value == prop.value;
    }
  }

  lemma {:induction false} SlashedTokens(names: seq<string>, prop: Option<string>, current: string)
    requires (forall i :: 0 <= i < |names| ==> IsToken(names[i])) && (prop.Some? ==> IsToken(prop.value))
    ensures Tokens(Slashed(names) + Tail(prop), current, false) == NonEmpty(current) + NameTokens(names, prop)
    decreases |names|
  {
    hide Tokens, Tail, IsToken, Slashed;
    if names == [] {
      assert Slashed(names) == "" by { NoSlash(); }
      assert Slashed(names) + Tail(prop) == Tail(prop);
      TailTokens(prop, current);
    } else {
      var rest := Slashed(names[1..]) + Tail(prop);
      var s := Slashed(names) + Tail(prop);
      SlashedSplit(names, Tail(prop));
      SlashStep(s, current);
      NameStep(names[0], rest);
      SlashedTokens(names[1..], prop, names[0]);
      assert [names[0]] + NameTokens(names[1..], prop) == NameTokens(names, prop);
    }
  }

  lemma NoSlash()
    ensures Slashed([]) == ""
  {
  }

  lemma SlashedSplit(names: seq<string>, tail: string)
    requires names != []
    ensures var s := Slashed(names) + tail; s != "" && s[0] == '/' && s[1..] == names[0] + (Slashed(names[1..]) + tail)
  {
    Regroup(names[0], Slashed(names[1..]), tail);
  }

  lemma Regroup(a: string, b: string, c: string)
    ensures ("/" + a + b) + c == "/" + (a + (b + c)) && ("/" + (a + (b + c)))[1..] == a + (b + c)
  {
  }

  lemma NameStep(name: string, rest: string)
    requires IsToken(name)
    ensures name != "" && Tokens(name + rest, "", false) == Tokens(rest, name, false)
  {
    hide Tokens;
    PlainTokens(name, rest, "");
    assert "" + name == name;
  }

  lemma {:induction false} StepsOfTokens(names: seq<string>, prop: Option<string>)
    requires (forall i :: 0 <= i < |names| ==> IsToken(names[i])) && (prop.Some? ==> IsToken(prop.value))
    ensures OpsOf(NameTokens(names, prop)) == (Steps(names, prop), true)
    decreases |names|
  {
    if names == [] {
      assert NameTokens(names, prop) == if prop.None? then [] else ["@", prop.value];
    } else {
      var ts := NameTokens(names, prop);
      assert ts[0] == names[0] && ts[1..] == NameTokens(names[1..], prop);
      assert TypeOf('/', false) == Splitter && TypeOf('\\', false) == Splitter && TypeOf('@',
          false) == SplitterAndToken;
      assert names[0] != "/" && names[0] != "\\" && names[0] != "@";
      StepsOfTokens(names[1..], prop);
    }
  }

  lemma NotTrimmed(s: string)
    requires s == "" || (!IsSpace(s[0]) && !IsSpace(s[|s| - 1]))
    ensures Trimmed(s) == s
  {
  }

  lemma {:induction false} SlashedEnd(names: seq<string>)
    requires names != [] && forall i :: 0 <= i < |names| ==> IsToken(names[i])
    ensures Slashed(names) != "" && Slashed(names)[0] == '/' && !IsSpace(Slashed(names)[|Slashed(names)| - 1])
  {
    if |names| > 1 {
      SlashedEnd(names[1..]);
    }
  }

  lemma RootTokens(prop: Option<string>)
    requires prop.Some? ==> IsToken(prop.value)
    ensures Tokens("/" + Tail(prop), "", true) == ["/"] + NameTokens([], prop)
  {
    hide Tokens, Tail, IsToken;
    SlashStep("/" + Tail(prop), "");
    assert ("/" + Tail(prop))[1..] == Tail(prop);
    TailTokens(prop, "");
  }

  lemma PathTokens(names: seq<string>, prop: Option<string>)
    requires names != [] && (forall i :: 0 <= i < |names| ==> IsToken(names[i])) && (prop.Some? ==> IsToken(prop.value))
    ensures Tokens(Slashed(names) + Tail(prop), "", true) == ["/"] + NameTokens(names, prop)
  {
    hide Tokens, Tail, IsToken;
    var s := Slashed(names) + Tail(prop);
    SlashedTokens(names, prop, "");
    SlashStep(s, "");
    assert s[0] == '/';
    assert NonEmpty("") + Tokens(s[1..], "", false) == Tokens(s[1..], "", false);
    assert NonEmpty("") + NameTokens(names, prop) == NameTokens(names, prop);
  }

  /** An absolute path of such names reads back as the operations it stands for. */
  lemma PathTextReads(names: seq<string>, prop: Option<string>)
    requires (forall i :: 0 <= i < |names| ==> IsToken(names[i])) && (prop.Some? ==> IsToken(prop.value))
    ensures OpsOf(Tokens(Trimmed(PathText(names, prop)), "", true)) == (PathOps(names, prop), true)
  {
    hide Tokens, Tail, Trimmed, OpsOf, Steps, IsToken, NameTokens, Slashed;
    PathTextEnds(names, prop);
    NotTrimmed(PathText(names, prop));
    if names == [] {
      RootTokens(prop);
    } else {
      PathTokens(names, prop);
    }
    RootFirst(NameTokens(names, prop));
    StepsOfTokens(names, prop);
  }

  lemma RootFirst(tokens: seq<string>)
    ensures OpsOf(["/"] + tokens) == ([Root] + OpsOf(tokens).0, OpsOf(tokens).1)
  {
    assert (["/"] + tokens)[1..] == tokens;
  }

  lemma PathTextEnds(names: seq<string>, prop: Option<string>)
    requires (forall i :: 0 <= i < |names| ==> IsToken(names[i])) && (prop.Some? ==> IsToken(prop.value))
    ensures var s := PathText(names, prop); s != "" && s[0] == '/' && !IsSpace(s[|s| - 1])
  {
    if names != [] {
      SlashedEnd(names);
    }
  }
}
