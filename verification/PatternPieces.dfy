/** What a file name pattern means, said without the matcher: a pattern is a list of pieces, and it
    matches the names that divide into as many parts, each in the language of its piece. */
module PatternPieces {
  import opened Wrappers
  import opened FilePatterns

  /** A character of a set, which may be quoted. */
  datatype Mark = Mark(c: char, quoted: bool)

  /** A range of a set; a single character is a range of one. */
  datatype Item = One(mark: Mark) | Range(low: Mark, high: Mark)

  datatype Piece =
    | Exactly(c: char)
    | Quoted(c: char)
    | AnyOne(tilde: bool)
    | Several(dots: bool)
    | Of(negated: bool, items: seq<Item>)
    | Delimiter(back: bool)

  // ---- How pieces are written ----------------------------------------------------------------------

  predicate MarkOK(m: Mark) {
    m.quoted || m.c !in "`]-!"
  }

  predicate ItemOK(i: Item) {
    match i
    case One(m) => MarkOK(m)
    case Range(l, h) => MarkOK(l) && MarkOK(h)
  }

  predicate PieceOK(p: Piece) {
    match p
    case Exactly(c) => c !in "`/\\!?~*^["
    case Of(_, items) => forall i :: 0 <= i < |items| ==> ItemOK(items[i])
    case _ => true
  }

  function MarkText(m: Mark): string {
    if m.quoted then ['`', m.c] else [m.c]
  }

  function ItemText(i: Item): string {
    match i
    case One(m) => MarkText(m)
    case Range(l, h) => MarkText(l) + "-" + MarkText(h)
  }

  function ItemsText(items: seq<Item>): string {
    if items == [] then "" else ItemText(items[0]) + ItemsText(items[1..])
  }

  function PieceText(p: Piece): string {
    match p
    case Exactly(c) => [c]
    case Quoted(c) => ['`', c]
    case AnyOne(tilde) => if tilde then "~" else "?"
    case Several(dots) => if dots then "*" else "^"
    case Of(negated, items) => "[" + (if negated then "!" else "") + ItemsText(items) + "]"
    case Delimiter(back) => if back then "\\" else "/"
  }

  function PatternText(pieces: seq<Piece>): string {
    if pieces == [] then "" else PieceText(pieces[0]) + PatternText(pieces[1..])
  }

  // ---- What pieces mean ----------------------------------------------------------------------------

  /** The same letter in either case, or the same character. */
  predicate SameLetter(a: char, b: char) {
    || a == b
    || ('A' <= a <= 'Z' && 'a' <= b <= 'z' && b as int - 'a' as int == a as int - 'A' as int)
    || ('A' <= b <= 'Z' && 'a' <= a <= 'z' && a as int - 'a' as int == b as int - 'A' as int)
  }

  /** The place of a character when capitals are taken for small letters. */
  function Rank(c: char): int {
    if 'A' <= c <= 'Z' then 'a' as int + (c as int - 'A' as int) else c as int
  }

  predicate InItem(c: char, i: Item) {
    match i
    case One(m) => SameLetter(c, m.c)
    case Range(l, h) => Rank(l.c) <= Rank(c) && Rank(c) <= Rank(h.c)
  }

  /** The strings a piece stands for. */
  ghost predicate InLanguage(p: Piece, part: string) {
    match p
    case Exactly(c) => |part| == 1 && SameLetter(part[0], c)
    case Quoted(c) => |part| == 1 && SameLetter(part[0], c)
    case AnyOne(_) => |part| == 1 && part[0] != '/' && part[0] != '\\'
    case Several(dots) => '/' !in part && '\\' !in part && (dots || '.' !in part)
    case Of(negated, items) => |part| == 1 && (negated <==> forall i :: 0 <= i < |items| ==> !InItem(part[0], items[i]))
    case Delimiter(_) => part == "/" || part == "\\"
  }

  ghost predicate Divides(pieces: seq<Piece>, parts: seq<string>) {
    |parts| == |pieces| && forall i :: 0 <= i < |pieces| ==> InLanguage(pieces[i], parts[i])
  }

  function Together(parts: seq<string>): string {
    if parts == [] then "" else parts[0] + Together(parts[1..])
  }

  /** The name divides into parts in the languages of the pieces. */
  ghost predicate Reads(pieces: seq<Piece>, name: string) {
    exists parts :: Divides(pieces, parts) && Together(parts) == name
  }

  // ---- Letters -------------------------------------------------------------------------------------

  lemma LowerMeans(a: char, b: char)
    ensures Lower(a) == Lower(b) <==> SameLetter(a, b)
    ensures Lower(a) <= Lower(b) <==> Rank(a) <= Rank(b)
  {
  }

  // ---- Sets ----------------------------------------------------------------------------------------

  lemma MarkReads(m: Mark, rest: string)
    requires MarkOK(m)
    ensures SetChar(MarkText(m) + rest) == Some((m.c, rest))
    ensures MarkText(m)[0] == if m.quoted then '`' else m.c
  {
    var p := MarkText(m) + rest;
    if m.quoted {
      assert p[2..] == rest;
    } else {
      assert p[1..] == rest && m.c != '`';
    }
  }

  function Bounds(i: Item): (char, char) {
    match i
    case One(m) => (m.c, m.c)
    case Range(l, h) => (l.c, h.c)
  }

  lemma ItemReads(i: Item, rest: string)
    requires ItemOK(i) && (rest == "" || rest[0] != '-')
    ensures SetItem(ItemText(i) + rest) == Some((Bounds(i).0, Bounds(i).1, rest))
    ensures ItemText(i)[0] != ']' && ItemText(i)[0] != '!' && ItemText(i)[0] != '-'
  {
    match i {
      case One(m) => MarkReads(m, rest);
      case Range(l, h) =>
        var tail := MarkText(h) + rest;
        assert ItemText(i) + rest == MarkText(l) + ("-" + tail);
        MarkReads(l, "-" + tail);
        assert ("-" + tail)[1..] == tail;
        MarkReads(h, rest);
    }
  }

  lemma BoundsMean(c: char, i: Item)
    ensures InRange(c, Bounds(i).0, Bounds(i).1) <==> InItem(c, i)
  {
    match i {
      case One(m) =>
        LowerMeans(c, m.c);
        LowerMeans(m.c, c);
      case Range(l, h) =>
        LowerMeans(l.c, c);
        LowerMeans(c, h.c);
    }
  }

  lemma FirstOfItems(items: seq<Item>)
    requires forall i :: 0 <= i < |items| ==> ItemOK(items[i])
    ensures items != [] ==> ItemsText(items) != "" && ItemsText(items)[0] !in "]!-"
  {
    if items != [] {
      ItemReads(items[0], "");
    }
  }

  lemma {:induction false} ItemsHold(items: seq<Item>, rest: string, c: char)
    requires forall i :: 0 <= i < |items| ==> ItemOK(items[i])
    ensures SetHolds(ItemsText(items) + "]" + rest, c) ==
            Some((exists i :: 0 <= i < |items| && InItem(c, items[i]), rest))
    decreases |items|
  {
    hide SetItem, InRange, InItem, ItemText, ItemOK;
    if items == [] {
      assert ItemsText(items) + "]" + rest == "]" + rest && ("]" + rest)[1..] == rest;
    } else {
      var more := ItemsText(items[1..]) + "]" + rest;
      assert ItemsText(items) + "]" + rest == ItemText(items[0]) + more;
      FirstOfItems(items[1..]);
      ItemReads(items[0], more);
      ItemsHold(items[1..], rest, c);
      BoundsMean(c, items[0]);
      assert (exists i :: 0 <= i < |items| && InItem(c, items[i])) <==>
             InItem(c, items[0]) || exists i :: 0 <= i < |items| - 1 && InItem(c, items[1..][i]) by {
        if i :| 0 <= i < |items| && InItem(c, items[i]) {
          if i > 0 {
            assert items[1..][i - 1] == items[i];
          }
        }
      }
    }
  }

  // ---- One piece -----------------------------------------------------------------------------------

  lemma {:induction false} RunMeans(name: string, dots: bool, k: nat)
    requires k <= |name|
    ensures k <= FilePatterns.Run(name, dots) <==> InLanguage(Several(dots), name[..k])
    decreases |name|
  {
    if k > 0 {
      RunMeans(name[1..], dots, k - 1);
      assert name[..k] == [name[0]] + name[1..][..k - 1];
    }
  }

  /** A piece and what follows it: the name has a part in the language of the piece before the rest. */
  lemma PieceThen(p: Piece, tail: string, name: string)
    requires PieceOK(p)
    ensures Matches(PieceText(p) + tail, name) <==>
            exists k :: 0 <= k <= |name| && InLanguage(p, name[..k]) && Matches(tail, name[k..])
  {
    match p {
      case Several(dots) => SeveralThen(dots, tail, name);
      case Of(negated, items) => SetThen(negated, items, tail, name);
      case _ => SingleThen(p, tail, name);
    }
  }

  lemma SeveralThen(dots: bool, tail: string, name: string)
    ensures Matches(PieceText(Several(dots)) + tail, name) <==>
            exists k :: 0 <= k <= |name| && InLanguage(Several(dots), name[..k]) && Matches(tail, name[k..])
  {
    var text := PieceText(Several(dots)) + tail;
    assert text[1..] == tail;
    forall k: nat | k <= |name|
      ensures k <= FilePatterns.Run(name, dots) <==> InLanguage(Several(dots), name[..k])
    {
      RunMeans(name, dots, k);
    }
    hide InLanguage;
  }

  /** How the matcher and the validity check treat a set at the front of a pattern. */
  lemma SetStep(text: string, name: string)
    requires text != "" && text[0] == '['
    ensures var body := SetBody(text[1..]);
            && (Matches(text, name) <==>
                  && name != "" && SetHolds(body, name[0]).Some?
                  && SetHolds(body, name[0]).value.0 == (body == text[1..])
                  && Matches(SetHolds(body, name[0]).value.1, name[1..]))
            && (IsValid(text) <==> SetHolds(body, ' ').Some? && IsValid(SetHolds(body, ' ').value.1))
  {
    hide SetHolds;
  }

  lemma SetText(negated: bool, items: seq<Item>, tail: string)
    requires PieceOK(Of(negated, items))
    ensures var text := PieceText(Of(negated, items)) + tail;
            && text != "" && text[0] == '[' && SetBody(text[1..]) == ItemsText(items) + "]" + tail
            && (SetBody(text[1..]) == text[1..] <==> !negated)
  {
    hide ItemOK;
    FirstOfItems(items);
    hide ItemsText, PieceOK;
    BracketText(ItemsText(items), negated, tail);
  }

  lemma BracketText(items: string, negated: bool, tail: string)
    requires items != "" ==> items[0] != '!'
    ensures var text := "[" + (if negated then "!" else "") + items + "]" + tail;
            && text[0] == '[' && SetBody(text[1..]) == items + "]" + tail
            && (SetBody(text[1..]) == text[1..] <==> !negated)
  {
    var text, body := "[" + (if negated then "!" else "") + items + "]" + tail, items + "]" + tail;
    if negated {
      assert text[1..] == "!" + body && ("!" + body)[1..] == body && |text[1..]| == |body| + 1;
    } else {
      assert text[1..] == body && body[0] != '!';
    }
  }

  lemma SetThen(negated: bool, items: seq<Item>, tail: string, name: string)
    requires PieceOK(Of(negated, items))
    ensures var p := Of(negated, items);
            Matches(PieceText(p) + tail, name) <==>
            exists k :: 0 <= k <= |name| && InLanguage(p, name[..k]) && Matches(tail, name[k..])
  {
    hide SetHolds, ItemOK, InItem, Matches, SetBody, PieceText, ItemsText;
    var p := Of(negated, items);
    SetText(negated, items, tail);
    SetStep(PieceText(p) + tail, name);
    if name != "" {
      ItemsHold(items, tail, name[0]);
      OnlyOne(p, name);
    }
  }

  /** A part of a piece that takes one character is the first one. */
  lemma OnlyOne(p: Piece, name: string)
    requires !p.Several? && name != ""
    ensures name[..1] == [name[0]]
    ensures forall k :: 0 <= k <= |name| && k != 1 ==> !InLanguage(p, name[..k])
  {
  }

  lemma SingleThen(p: Piece, tail: string, name: string)
    requires PieceOK(p) && !p.Several? && !p.Of?
    ensures Matches(PieceText(p) + tail, name) <==>
            exists k :: 0 <= k <= |name| && InLanguage(p, name[..k]) && Matches(tail, name[k..])
  {
    var text := PieceText(p) + tail;
    if p.Quoted? {
      assert text[0] == '`' && text[1..][0] == p.c && text[1..][1..] == tail;
    } else {
      assert text[1..] == tail;
    }
    if name != "" {
      OnlyOne(p, name);
      if p.Exactly? || p.Quoted? {
        LowerMeans(name[0], p.c);
      }
    }
  }

  // ---- Whole patterns ------------------------------------------------------------------------------

  /** The name begins with parts in the languages of the pieces, and `tail` matches what is left. */
  ghost predicate ReadsThen(pieces: seq<Piece>, tail: string, name: string) {
    exists parts :: Divides(pieces, parts) && Together(parts) <= name && Matches(tail, name[|Together(parts)|..])
  }

  lemma {:induction false} PiecesThen(pieces: seq<Piece>, tail: string, name: string)
    requires forall i :: 0 <= i < |pieces| ==> PieceOK(pieces[i])
    ensures Matches(PatternText(pieces) + tail, name) <==> ReadsThen(pieces, tail, name)
    decreases |pieces|
  {
    hide Matches, PieceOK, InLanguage;
    if pieces == [] {
      assert PatternText(pieces) + tail == tail;
      assert Divides([], []) && Together([]) == "" && name[0..] == name;
    } else {
      var p, more := pieces[0], pieces[1..];
      var rest := PatternText(more) + tail;
      assert PatternText(pieces) + tail == PieceText(p) + rest;
      PieceThen(p, rest, name);
      forall k | 0 <= k <= |name| ensures Matches(rest, name[k..]) <==> ReadsThen(more, tail, name[k..]) {
        PiecesThen(more, tail, name[k..]);
      }
      if k :| 0 <= k <= |name| && InLanguage(p, name[..k]) && Matches(rest, name[k..]) {
        AddPart(p, more, tail, name, k);
      }
      if ReadsThen(pieces, tail, name) {
        FirstPart(pieces, tail, name);
      }
    }
  }

  lemma AddPart(p: Piece, more: seq<Piece>, tail: string, name: string, k: nat)
    requires k <= |name| && InLanguage(p, name[..k]) && ReadsThen(more, tail, name[k..])
    ensures ReadsThen([p] + more, tail, name)
  {
    hide InLanguage, Matches;
    var parts :| Divides(more, parts) && Together(parts) <= name[k..] && Matches(tail, name[k..][|Together(parts)|..]);
    var all := [name[..k]] + parts;
    assert all[1..] == parts && Together(all) == name[..k] + Together(parts);
    assert name[k..][|Together(parts)|..] == name[|Together(all)|..];
    assert Divides([p] + more, all);
  }

  lemma FirstPart(pieces: seq<Piece>, tail: string, name: string)
    requires pieces != [] && ReadsThen(pieces, tail, name)
    ensures exists k :: 0 <= k <= |name| && InLanguage(pieces[0], name[..k]) && ReadsThen(pieces[1..], tail, name[k..])
  {
    hide InLanguage, Matches;
    var parts :| Divides(pieces, parts) && Together(parts) <= name && Matches(tail, name[|Together(parts)|..]);
    var k, rest := |parts[0]|, parts[1..];
    assert Together(parts) == parts[0] + Together(rest);
    assert name[..k] == parts[0] && Together(rest) <= name[k..];
    assert name[k..][|Together(rest)|..] == name[|Together(parts)|..];
    assert Divides(pieces[1..], rest);
  }

  lemma ReadsAll(pieces: seq<Piece>, name: string)
    ensures ReadsThen(pieces, "", name) <==> Reads(pieces, name)
  {
    hide InLanguage;
    if parts :| Divides(pieces, parts) && Together(parts) == name {
      assert Together(parts) <= name && name[|Together(parts)|..] == "";
    }
    if parts :| Divides(pieces, parts) && Together(parts) <= name && Matches("", name[|Together(parts)|..]) {
      assert Together(parts) == name;
    }
  }

  lemma {:induction false} TextIsValid(pieces: seq<Piece>)
    requires forall i :: 0 <= i < |pieces| ==> PieceOK(pieces[i])
    ensures IsValid(PatternText(pieces))
    ensures pieces != [] ==> PatternText(pieces) != "" && PatternText(pieces)[0] != '!'
    decreases |pieces|
  {
    hide SetHolds, ItemOK, PieceText, PieceOK;
    if pieces != [] {
      var p, rest := pieces[0], PatternText(pieces[1..]);
      TextIsValid(pieces[1..]);
      PieceIsValid(p, rest);
    }
  }

  lemma PieceIsValid(p: Piece, rest: string)
    requires PieceOK(p) && IsValid(rest)
    ensures PieceText(p) != "" && IsValid(PieceText(p) + rest) && (PieceText(p) + rest)[0] != '!'
  {
    var text := PieceText(p) + rest;
    match p {
      case Of(negated, items) => SetIsValid(negated, items, rest);
      case Quoted(_) => assert text[2..] == rest && text[0] == '`';
      case Exactly(c) => assert text[1..] == rest && text[0] == c;
      case AnyOne(_) => assert text[1..] == rest;
      case Several(_) => assert text[1..] == rest;
      case Delimiter(_) => assert text[1..] == rest;
    }
  }

  lemma SetIsValid(negated: bool, items: seq<Item>, rest: string)
    requires PieceOK(Of(negated, items)) && IsValid(rest)
    ensures var text := PieceText(Of(negated, items)) + rest; IsValid(text) && text[0] == '['
  {
    hide SetHolds, ItemOK, InItem, IsValid, SetBody, PieceText, ItemsText;
    SetText(negated, items, rest);
    SetStep(PieceText(Of(negated, items)) + rest, "");
    ItemsHold(items, rest, ' ');
  }

  /** A pattern written from pieces matches exactly the names that divide into parts in their languages. */
  lemma PatternMeans(pieces: seq<Piece>, name: string)
    requires pieces != [] && forall i :: 0 <= i < |pieces| ==> PieceOK(pieces[i])
    ensures DoesMatch(PatternText(pieces), name) <==> name != "" && Reads(pieces, name)
  {
    hide Matches, PieceOK, Reads, ReadsThen;
    TextIsValid(pieces);
    assert PatternText(pieces) + "" == PatternText(pieces);
    PiecesThen(pieces, "", name);
    ReadsAll(pieces, name);
  }

  /** An exclamation mark inside a pattern takes the complement of what follows it, for the rest of the
      name. */
  lemma ExclusionMeans(pieces: seq<Piece>, others: seq<Piece>, name: string)
    requires others != [] && (forall i :: 0 <= i < |pieces| ==> PieceOK(pieces[i]))
    requires forall i :: 0 <= i < |others| ==> PieceOK(others[i])
    ensures Matches(PatternText(pieces) + ("!" + PatternText(others)), name) <==>
            exists parts :: Divides(pieces, parts) && Together(parts) <= name
                            && !Reads(others, name[|Together(parts)|..])
  {
    hide PieceOK, Reads, ReadsThen, Divides;
    var tail := "!" + PatternText(others);
    PiecesThen(pieces, tail, name);
    forall rest ensures Matches(tail, rest) <==> !Reads(others, rest) {
      TextIsValid(others);
      assert tail[1..] == PatternText(others) == PatternText(others) + "";
      PiecesThen(others, "", rest);
      ReadsAll(others, rest);
    }
    ThenMeans(pieces, tail, name);
  }

  lemma ThenMeans(pieces: seq<Piece>, tail: string, name: string)
    ensures ReadsThen(pieces, tail, name) <==>
            exists parts ::
              Divides(pieces, parts) && Together(parts) <= name && Matches(tail, name[|Together(parts)|..])
  {
  }
}
