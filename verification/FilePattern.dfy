/** File name patterns: what a data table path asks of the names it meets. */
module FilePatterns {
  import opened Wrappers

  // ---- What a pattern matches ----------------------------------------------------------------------

  /** The lower case of a character of one byte. */
  function Lower(c: char): char {
    if 'A' <= c <= 'Z' then c + 32 as char else c
  }

  predicate IsDelimiter(c: char) {
    c == '/' || c == '\\'
  }

  /** The characters that do not stand for themselves. */
  predicate IsMeta(c: char) {
    IsDelimiter(c) || c in "`!?~*^["
  }

  /** One character of a set, which may be quoted, and what follows it. */
  function SetChar(p: string): (r: Option<(char, string)>)
    ensures r.Some? ==> |r.value.1| < |p|
  {
    if p == "" then None
    else if p[0] != '`' then Some((p[0], p[1..]))
    else if |p| == 1 then None
    else Some((p[1], p[2..]))
  }

  /** One character or range of a set, and what follows it. */
  function SetItem(p: string): (r: Option<(char, char, string)>)
    ensures r.Some? ==> |r.value.2| < |p|
  {
    match SetChar(p)
    case None => None
    case Some((low, q)) =>
      if q == "" || q[0] != '-' then Some((low, low, q))
      else
        match SetChar(q[1..])
        case None => None
        case Some((high, r)) => Some((low, high, r))
  }

  predicate InRange(c: char, low: char, high: char) {
    Lower(low) <= Lower(c) <= Lower(high)
  }

  /** Whether the set at the front of `p`, without its opening bracket, holds `c`, and what follows its
      closing bracket; nothing if there is none. */
  function SetHolds(p: string, c: char): (r: Option<(bool, string)>)
    ensures r.Some? ==> |r.value.1| < |p|
    decreases |p|
  {
    if p != "" && p[0] == ']' then Some((false, p[1..]))
    else
      match SetItem(p)
      case None => None
      case Some((low, high, q)) =>
        match SetHolds(q, c)
        case None => None
        case Some((held, rest)) => Some((held || InRange(c, low, high), rest))
  }

  function SetBody(p: string): string {
    if p != "" && p[0] == '!' then p[1..] else p
  }

  /** How many characters at the front of a name a star or a caret may stand for. */
  function Run(name: string, dots: bool): (n: nat)
    ensures n <= |name|
  {
    if name == "" || IsDelimiter(name[0]) || (name[0] == '.' && !dots) then 0 else 1 + Run(name[1..], dots)
  }

  /** Whether every set is closed, and something follows every quote and exclamation mark. */
  predicate IsValid(p: string)
    decreases |p|
  {
    if p == "" then true
    else if p[0] == '[' then
      var closed := SetHolds(SetBody(p[1..]), ' ');
      closed.Some? && IsValid(closed.value.1)
    else if p[0] == '`' || p[0] == '!' then |p| > 1 && IsValid(p[2..])
    else IsValid(p[1..])
  }

  /** The pattern matches the whole name. */
  ghost predicate Matches(p: string, name: string)
    decreases |p|
  {
    if p == "" then name == ""
    else
      var rest := p[1..];
      match p[0]
      case '?' => name != "" && !IsDelimiter(name[0]) && Matches(rest, name[1..])
      case '~' => name != "" && !IsDelimiter(name[0]) && Matches(rest, name[1..])
      case '*' => exists i :: 0 <= i <= Run(name, true) && Matches(rest, name[i..])
      case '^' => exists i :: 0 <= i <= Run(name, false) && Matches(rest, name[i..])
      case '`' => rest != "" && name != "" && Lower(name[0]) == Lower(rest[0]) && Matches(rest[1..], name[1..])
      case '[' =>
        && name != ""
        && var r := SetHolds(SetBody(rest), name[0]);
           r.Some? && r.value.0 == (SetBody(rest) == rest) && Matches(r.value.1, name[1..])
      case '!' => rest != "" && !Matches(rest, name)
      case '/' => name != "" && IsDelimiter(name[0]) && Matches(rest, name[1..])
      case '\\' => name != "" && IsDelimiter(name[0]) && Matches(rest, name[1..])
      case c => name != "" && Lower(name[0]) == Lower(c) && Matches(rest, name[1..])
  }

  /** `cFilePatternRegex::DoesMatch` of a single pattern: one that begins with an exclamation mark can
      only refuse. */
  ghost predicate DoesMatch(p: string, name: string) {
    && p != "" && p[0] != '!' && IsValid(p)
    && name != "" && Matches(p, name)
  }

  // ---- The matcher ---------------------------------------------------------------------------------

  /** Adds what was already found of a set to what the rest of it says. */
  function Or(held: bool, r: Option<(bool, string)>): Option<(bool, string)> {
    if r.None? then None else Some((held || r.value.0, r.value.1))
  }

  /** The loop over the characters and ranges of a set. */
  method ScanSet(p: string, c: char) returns (r: Option<(bool, string)>)
    ensures r == SetHolds(p, c)
  {
    var q, held := p, false;
    while q == "" || q[0] != ']'
      invariant SetHolds(p, c) == Or(held, SetHolds(q, c))
      decreases |q|
    {
      var item := SetItem(q);
      if item.None? {
        return None;
      }
      var (low, high, rest) := item.value;
      if InRange(c, low, high) {
        held := true;
      }
      q := rest;
    }
    r := Some((held, q[1..]));
  }

  /** `afilepattern_isvalid`. */
  method IsWellFormed(p: string) returns (ok: bool)
    ensures ok == IsValid(p)
  {
    var q := p;
    while q != ""
      invariant IsValid(p) == IsValid(q)
      decreases |q|
    {
      if q[0] == '[' {
        var r := ScanSet(SetBody(q[1..]), ' ');
        if r.None? {
          return false;
        }
        q := r.value.1;
      } else if q[0] == '`' || q[0] == '!' {
        if |q| == 1 {
          return false;
        }
        q := q[2..];
      } else {
        q := q[1..];
      }
    }
    ok := true;
  }

  method CountRun(name: string, dots: bool) returns (n: nat)
    ensures n == Run(name, dots)
  {
    n := 0;
    assert name[0..] == name;
    while n < |name| && !IsDelimiter(name[n]) && (name[n] != '.' || dots)
      invariant n <= |name| && Run(name, dots) == n + Run(name[n..], dots)
    {
      assert name[n..][1..] == name[n + 1..];
      n := n + 1;
    }
  }

  /** Tries the endings of a name, shortest first. */
  method MatchAfterRun(rest: string, name: string, run: nat) returns (ok: bool)
    requires run <= |name|
    ensures ok <==> exists i :: 0 <= i <= run && Matches(rest, name[i..])
    decreases |rest|, 1
  {
    var i: int := run;
    while i >= 0
      invariant -1 <= i <= run
      invariant forall k :: i < k <= run ==> !Matches(rest, name[k..])
    {
      var found := SubMatch(rest, name[i..]);
      if found {
        return true;
      }
      i := i - 1;
    }
    ok := false;
  }

  /** `afilepattern_submatch`. */
  method SubMatch(p: string, name: string) returns (ok: bool)
    ensures ok <==> Matches(p, name)
    decreases |p|, 0
  {
    var q, f := p, name;
    while q != ""
      invariant Matches(p, name) == Matches(q, f)
      decreases |q|
    {
      var c, rest := q[0], q[1..];
      match c {
        case '?' =>
          if f == "" || IsDelimiter(f[0]) {
            return false;
          }
          q, f := rest, f[1..];
        case '~' =>
          if f == "" || IsDelimiter(f[0]) {
            return false;
          }
          q, f := rest, f[1..];
        case '*' =>
          var run := CountRun(f, true);
          ok := MatchAfterRun(rest, f, run);
          return;
        case '^' =>
          var run := CountRun(f, false);
          ok := MatchAfterRun(rest, f, run);
          return;
        case '`' =>
          if rest == "" || f == "" || Lower(f[0]) != Lower(rest[0]) {
            return false;
          }
          q, f := rest[1..], f[1..];
        case '[' =>
          if f == "" {
            return false;
          }
          var r := ScanSet(SetBody(rest), f[0]);
          if r.None? || r.value.0 != (SetBody(rest) == rest) {
            return false;
          }
          q, f := r.value.1, f[1..];
        case '!' =>
          if rest == "" {
            return false;
          }
          var found := SubMatch(rest, f);
          return !found;
        case '/' =>
          if f == "" || !IsDelimiter(f[0]) {
            return false;
          }
          q, f := rest, f[1..];
        case '\\' =>
          if f == "" || !IsDelimiter(f[0]) {
            return false;
          }
          q, f := rest, f[1..];
        case _ =>
          if f == "" || Lower(f[0]) != Lower(c) {
            return false;
          }
          q, f := rest, f[1..];
      }
    }
    ok := f == "";
  }

  /** `cFilePatternRegex::DoesMatch`. */
  method TestName(p: string, name: string) returns (ok: bool)
    ensures ok <==> DoesMatch(p, name)
  {
    if p == "" || p[0] == '!' || name == "" {
      return false;
    }
    ok := IsWellFormed(p);
    if ok {
      ok := SubMatch(p, name);
    }
  }

  // ---- Patterns without wildcards ------------------------------------------------------------------

  predicate Literal(p: string) {
    p != "" && forall i :: 0 <= i < |p| ==> !IsMeta(p[i])
  }

  /** The same but for the case of letters. */
  predicate SameFolded(a: string, b: string) {
    |a| == |b| && forall i :: 0 <= i < |a| ==> Lower(a[i]) == Lower(b[i])
  }

  lemma {:induction false} LiteralIsValid(p: string)
    requires forall i :: 0 <= i < |p| ==> !IsMeta(p[i])
    ensures IsValid(p)
  {
    if p != "" {
      assert !IsMeta(p[0]);
      LiteralIsValid(p[1..]);
    }
  }

  lemma {:induction false} LiteralMatchesFrom(p: string, name: string)
    requires forall i :: 0 <= i < |p| ==> !IsMeta(p[i])
    ensures Matches(p, name) <==> SameFolded(p, name)
    decreases |p|
  {
    if p != "" {
      assert !IsMeta(p[0]);
      if name != "" {
        LiteralMatchesFrom(p[1..], name[1..]);
        FoldedSplit(p, name);
      }
    }
  }

  lemma FoldedSplit(p: string, name: string)
    requires p != "" && name != ""
    ensures SameFolded(p, name) <==> Lower(p[0]) == Lower(name[0]) && SameFolded(p[1..], name[1..])
  {
    if Lower(p[0]) == Lower(name[0]) && SameFolded(p[1..], name[1..]) {
      forall i | 0 <= i < |p| ensures Lower(p[i]) == Lower(name[i]) {
        if i > 0 {
          assert Lower(p[1..][i - 1]) == Lower(name[1..][i - 1]);
        }
      }
    }
  }

  /** A pattern without wildcards matches the names that differ from it in the case of letters only. */
  lemma LiteralMatches(p: string, name: string)
    requires Literal(p)
    ensures DoesMatch(p, name) <==> SameFolded(p, name)
  {
    assert !IsMeta(p[0]);
    LiteralIsValid(p);
    LiteralMatchesFrom(p, name);
  }

  /** A quoted name stands for itself whatever its characters. */
  function Quoted(name: string): string {
    if name == "" then "" else ['`', name[0]] + Quoted(name[1..])
  }

  lemma {:induction false} QuotedFrom(name: string, other: string)
    ensures IsValid(Quoted(name)) && (Matches(Quoted(name), other) <==> SameFolded(name, other))
    decreases |name|
  {
    if name != "" {
      var q := Quoted(name);
      assert q[0] == '`' && q[1..][0] == name[0] && q[1..][1..] == Quoted(name[1..]) && q[2..] == Quoted(name[1..]);
      QuotedFrom(name[1..], if other == "" then "" else other[1..]);
      if other != "" {
        FoldedSplit(name, other);
      }
    }
  }

  lemma QuotedMatches(name: string, other: string)
    requires name != ""
    ensures DoesMatch(Quoted(name), other) <==> SameFolded(name, other)
  {
    QuotedFrom(name, other);
  }
}
