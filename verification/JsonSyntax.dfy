/**
 Which texts the parser takes, and for what: those that spell a value out as a
 tree of tokens, with white space between them. The tree is what the text has
 beyond its value: the white space, and how each character of a string is written.
 */
module JsonSyntax {
  import opened Json
  import opened JsonRoundTrip
  import opened JsonNumerals

  /** A character of a string, as itself or as an escape. */
  datatype Piece = Plain(char) | Escaping(char)

  /** A value with the white space before it; `space` is what an empty object or array holds. */
  datatype Syntax =
    | Token(lead: string, token: JsonValue)
    | Quoted(lead: string, pieces: seq<Piece>)
    | Braces(lead: string, space: string, members: seq<Member>)
    | Brackets(lead: string, space: string, items: seq<Item>)

  datatype Member = Member(before: string, key: seq<Piece>, between: string, value: Syntax, after: string)

  datatype Item = Item(value: Syntax, after: string)

  // ---------------------------------------------------------- what it writes

  /** Space, tab, line feed, vertical tab, form feed and carriage return. */
  const BLANKS: set<char> := {' ', '\t', '\n', 11 as char, 12 as char, '\r'}

  predicate AllSpace(s: string) {
    forall i :: 0 <= i < |s| ==> s[i] in BLANKS
  }

  lemma SpaceExactly(c: char)
    ensures IsSpace(c) <==> c in BLANKS
  {
  }

  /** What the second character of an escape stands for. */
  const ESCAPES: map<char, char> :=
    map['"' := '"', '\\' := '\\', '/' := '/', 'b' := 8 as char, 'f' := 12 as char, 'n' := '\n', 'r' := '\r',
        't' := '\t']

  lemma EscapesExactly(c: char)
    ensures Unescaped(c) == if c in ESCAPES then [ESCAPES[c]] else ""
  {
  }

  predicate ValidPiece(p: Piece) {
    match p
    case Plain(c) => c != '"' && c != '\\'
    case Escaping(c) => c in ESCAPES
  }

  function PieceText(p: Piece): string {
    match p
    case Plain(c) => [c]
    case Escaping(c) => ['\\', c]
  }

  /** The pieces, and `rest` behind them; so for the functions that follow. */
  function WritePieces(pieces: seq<Piece>, rest: string): string {
    if pieces == [] then rest else PieceText(pieces[0]) + WritePieces(pieces[1..], rest)
  }

  function WriteString(pieces: seq<Piece>, rest: string): string {
    "\"" + WritePieces(pieces, "\"" + rest)
  }

  function Write(x: Syntax, rest: string): string
    decreases x, 0
  {
    x.lead + Bare(x, rest)
  }

  /** A value without the white space before it. */
  function Bare(x: Syntax, rest: string): string
    decreases x, -1
  {
    match x
    case Token(_, token) => Print(token) + rest
    case Quoted(_, pieces) => WriteString(pieces, rest)
    case Braces(_, space, members) => "{" + if members == [] then space + ("}" + rest) else WriteMembers(members, rest)
    case Brackets(_, space, items) => "[" + if items == [] then space + ("]" + rest) else WriteItems(items, rest)
  }

  /** The members and the closing brace. */
  function WriteMembers(ms: seq<Member>, rest: string): string
    requires ms != []
    decreases ms, 1
  {
    ms[0].before + WriteString(ms[0].key, ms[0].between + (":" + WriteValueOf(ms, rest)))
  }

  /** The first member's value, and on. */
  function WriteValueOf(ms: seq<Member>, rest: string): string
    requires ms != []
    decreases ms, 0
  {
    Write(ms[0].value, ms[0].after + if |ms| == 1 then "}" + rest else "," + WriteMembers(ms[1..], rest))
  }

  /** The elements and the closing bracket. */
  function WriteItems(xs: seq<Item>, rest: string): string
    requires xs != []
    decreases xs, 1
  {
    Write(xs[0].value, xs[0].after + if |xs| == 1 then "]" + rest else "," + WriteItems(xs[1..], rest))
  }

  // ------------------------------------------------------------ what it means

  function PieceMean(p: Piece): string {
    match p
    case Plain(c) => [c]
    case Escaping(c) => if c in ESCAPES then [ESCAPES[c]] else ""
  }

  function PiecesMean(pieces: seq<Piece>): string {
    if pieces == [] then "" else PieceMean(pieces[0]) + PiecesMean(pieces[1..])
  }

  function Mean(x: Syntax): JsonValue
    decreases x, 0
  {
    match x
    case Token(_, token) => token
    case Quoted(_, pieces) => Text(PiecesMean(pieces))
    case Braces(_, _, members) => Object(MembersMean(members))
    case Brackets(_, _, items) => Array(ItemsMean(items))
  }

  function MembersMean(ms: seq<Member>): seq<(string, JsonValue)>
    decreases ms, 1
  {
    if ms == [] then [] else [(PiecesMean(ms[0].key), Mean(ms[0].value))] + MembersMean(ms[1..])
  }

  function ItemsMean(xs: seq<Item>): seq<JsonValue>
    decreases xs, 1
  {
    if xs == [] then [] else [Mean(xs[0].value)] + ItemsMean(xs[1..])
  }

  predicate ValidKey(pieces: seq<Piece>) {
    forall i :: 0 <= i < |pieces| ==> ValidPiece(pieces[i])
  }

  /** White space is white space, pieces stand for characters, and tokens are the words and the numbers. */
  ghost predicate Valid(finite: string -> bool, x: Syntax)
    decreases x, 0
  {
    AllSpace(x.lead) &&
    match x
    case Token(_, token) =>
      token.Null? || token.Bool? || (token.Number? && IsNumeral(token.token) && finite(token.token))
    case Quoted(_, pieces) => ValidKey(pieces)
    case Braces(_, space, members) => AllSpace(space) && ValidMembers(finite, members)
    case Brackets(_, space, items) => AllSpace(space) && ValidItems(finite, items)
  }

  ghost predicate ValidMembers(finite: string -> bool, ms: seq<Member>)
    decreases ms, 1
  {
    ms != [] ==>
      && AllSpace(ms[0].before) && ValidKey(ms[0].key) && AllSpace(ms[0].between)
      && Valid(finite, ms[0].value) && AllSpace(ms[0].after) && ValidMembers(finite, ms[1..])
  }

  ghost predicate ValidItems(finite: string -> bool, xs: seq<Item>)
    decreases xs, 1
  {
    xs != [] ==> Valid(finite, xs[0].value) && AllSpace(xs[0].after) && ValidItems(finite, xs[1..])
  }

  // -------------------------------------------- what is written is accepted

  lemma {:induction false} SkipLead(lead: string, s: string)
    requires AllSpace(lead) && (s != [] ==> !IsSpace(s[0]))
    ensures SkipSpace(lead + s) == s
  {
    if lead == [] {
      assert lead + s == s;
    } else {
      assert (lead + s)[1..] == lead[1..] + s;
      SkipLead(lead[1..], s);
    }
  }

  lemma OnePiece(p: Piece, more: string, out: string)
    requires ValidPiece(p)
    ensures ParseChars(PieceText(p) + more, out) == ParseChars(more, out + PieceMean(p))
  {
    var s := PieceText(p) + more;
    match p
    case Plain(c) => assert s[0] == c && s[1..] == more;
    case Escaping(c) => assert s[0] == '\\' && s[1] == c && s[2..] == more;
  }

  lemma {:induction false} PiecesAccepted(pieces: seq<Piece>, rest: string, out: string)
    requires ValidKey(pieces)
    ensures ParseChars(WritePieces(pieces, "\"" + rest), out) == Ok(out + PiecesMean(pieces), rest)
  {
    if pieces == [] {
      assert ("\"" + rest)[1..] == rest && out + "" == out;
    } else {
      hide ParseChars, PieceText, PieceMean, ValidPiece;
      var more := WritePieces(pieces[1..], "\"" + rest);
      OnePiece(pieces[0], more, out);
      PiecesAccepted(pieces[1..], rest, out + PieceMean(pieces[0]));
      assert out + PieceMean(pieces[0]) + PiecesMean(pieces[1..]) == out + PiecesMean(pieces);
    }
  }

  lemma StringAccepted(pieces: seq<Piece>, rest: string)
    requires ValidKey(pieces)
    ensures ParseChars(WriteString(pieces, rest)[1..], "") == Ok(PiecesMean(pieces), rest)
  {
    PiecesAccepted(pieces, rest, "");
    assert WriteString(pieces, rest)[1..] == WritePieces(pieces, "\"" + rest);
    assert "" + PiecesMean(pieces) == PiecesMean(pieces);
  }

  lemma BareStarts(finite: string -> bool, x: Syntax, rest: string)
    requires Valid(finite, x)
    ensures Bare(x, rest) != [] && !IsSpace(Bare(x, rest)[0]) && Bare(x, rest)[0] != ']'
  {
    hide IsNumeral, IsNumber, WriteMembers, WriteItems, WritePieces;
    if x.Token? {
      if x.token.Number? {
        NumeralExactly(x.token.token);
      }
      PrintStarts(finite, x.token);
      assert Bare(x, rest)[0] == Print(x.token)[0];
    }
  }

  lemma SpaceThenMark(space: string, mark: string, rest: string)
    requires AllSpace(space) && |mark| == 1 && !IsSpace(mark[0])
    ensures SkipSpace(space + (mark + rest)) == mark + rest && (mark + rest)[1..] == rest
    ensures EndsNumber(mark) ==> EndsNumber(space + (mark + rest))
  {
    SkipLead(space, mark + rest);
    var s := space + (mark + rest);
    assert s[0] == if space == [] then mark[0] else space[0];
  }

  lemma {:induction false} SkipTwice(s: string)
    ensures SkipSpace(SkipSpace(s)) == SkipSpace(s)
  {
    if s == [] || !IsSpace(s[0]) {
    } else {
      SkipTwice(s[1..]);
    }
  }

  lemma NumberAccepted(finite: string -> bool, token: string, rest: string)
    requires IsNumber(token) && finite(token) && EndsNumber(rest)
    ensures ParseValue(finite, token + rest) == Ok(Number(token), rest)
  {
    hide IsNumber, ParseNumber, ParseMembers, ParseElements, ParseChars, EndsNumber;
    NumberRoundTrip(finite, token, rest);
    NoSpaceToSkip(token + rest);
    assert (token + rest)[0] == token[0];
  }

  lemma TokenAccepted(finite: string -> bool, x: Syntax, rest: string)
    requires Valid(finite, x) && x.Token? && EndsNumber(rest)
    ensures ParseValue(finite, Bare(x, rest)) == Ok(x.token, rest)
  {
    hide IsNumeral, IsNumber, ParseNumber, ParseMembers, ParseElements, ParseChars, EndsNumber;
    var s := Print(x.token) + rest;
    if x.token.Number? {
      NumeralExactly(x.token.token);
      NumberAccepted(finite, x.token.token, rest);
    } else {
      NoSpaceToSkip(s);
      assert s[|Print(x.token)|..] == rest;
      assert x.token.Null? ==> "null" <= s;
      assert x.token.Bool? ==> (if x.token.boolean then "true" else "false") <= s;
    }
  }

  lemma SkipLeadInValue(finite: string -> bool, x: Syntax, rest: string)
    requires Valid(finite, x)
    ensures ParseValue(finite, Write(x, rest)) == ParseValue(finite, Bare(x, rest))
    ensures SkipSpace(Write(x, rest)) == Bare(x, rest)
  {
    hide Bare, ParseChars, ParseMembers, ParseElements, ParseNumber;
    BareStarts(finite, x, rest);
    SkipLead(x.lead, Bare(x, rest));
    NoSpaceToSkip(Bare(x, rest));
  }

  /** The parser takes a written value for what it means, and stops where it ends. */
  lemma {:induction false} ValueAccepted(finite: string -> bool, x: Syntax, rest: string)
    requires Valid(finite, x) && EndsNumber(rest)
    ensures ParseValue(finite, Write(x, rest)) == Ok(Mean(x), rest)
    decreases x, 0
  {
    hide ParseValue, Bare;
    SkipLeadInValue(finite, x, rest);
    match x
    case Token(_, _) => TokenAccepted(finite, x, rest);
    case Quoted(_, pieces) => QuotedAccepted(finite, x, rest);
    case Braces(_, space, members) =>
      if members == [] {
        EmptyAccepted(finite, x, rest);
      } else {
        MembersAccepted(finite, members, rest, []);
        BracesAccepted(finite, x, rest);
      }
    case Brackets(_, space, items) =>
      if items == [] {
        EmptyAccepted(finite, x, rest);
      } else {
        ItemsAccepted(finite, items, rest, []);
        BracketsAccepted(finite, x, rest);
      }
  }

  lemma QuotedAccepted(finite: string -> bool, x: Syntax, rest: string)
    requires Valid(finite, x) && x.Quoted?
    ensures ParseValue(finite, Bare(x, rest)) == Ok(Mean(x), rest)
  {
    hide ParseChars, ParseMembers, ParseElements, ParseNumber, WritePieces;
    StringAccepted(x.pieces, rest);
    NoSpaceToSkip(Bare(x, rest));
  }

  lemma EmptyAccepted(finite: string -> bool, x: Syntax, rest: string)
    requires Valid(finite, x) && ((x.Braces? && x.members == []) || (x.Brackets? && x.items == []))
    ensures ParseValue(finite, Bare(x, rest)) == Ok(Mean(x), rest)
  {
    hide ParseChars, ParseMembers, ParseElements, ParseNumber, WriteMembers, WriteItems, SkipSpace;
    var s := Bare(x, rest);
    NoSpaceToSkip(s);
    var mark := if x.Braces? then "}" else "]";
    SpaceThenMark(x.space, mark, rest);
    assert s[1..] == x.space + (mark + rest);
  }

  lemma BracesAccepted(finite: string -> bool, x: Syntax, rest: string)
    requires Valid(finite, x) && x.Braces? && x.members != []
    requires ParseMembers(finite, WriteMembers(x.members, rest), []) == Ok(Object([] + MembersMean(x.members)), rest)
    ensures ParseValue(finite, Bare(x, rest)) == Ok(Mean(x), rest)
  {
    hide ParseChars, ParseElements, ParseNumber, WriteMembers, WritePieces, MembersMean;
    var s := Bare(x, rest);
    var t := WriteMembers(x.members, rest);
    NoSpaceToSkip(s);
    assert s[1..] == t;
    MembersStart(finite, x.members, rest);
    SkipTwice(t);
    MembersSkip(finite, t, []);
    assert [] + MembersMean(x.members) == MembersMean(x.members);
  }

  lemma MembersSkip(finite: string -> bool, s: string, done: seq<(string, JsonValue)>)
    ensures ParseMembers(finite, SkipSpace(s), done) == ParseMembers(finite, s, done)
  {
    hide SkipSpace, ParseChars, ParseValue;
    SkipTwice(s);
  }

  lemma ItemsSkip(finite: string -> bool, s: string, done: seq<JsonValue>)
    ensures ParseElements(finite, SkipSpace(s), done) == ParseElements(finite, s, done)
  {
    hide SkipSpace, ParseChars, ParseMembers;
    SkipTwice(s);
  }

  lemma MembersStart(finite: string -> bool, ms: seq<Member>, rest: string)
    requires ms != [] && ValidMembers(finite, ms)
    ensures SkipSpace(WriteMembers(ms, rest)) == WriteString(ms[0].key, ms[0].between + (":" + WriteValueOf(ms, rest)))
    ensures !StartsWith(SkipSpace(WriteMembers(ms, rest)), "}")
  {
    hide WritePieces, WriteValueOf;
    SkipLead(ms[0].before, WriteString(ms[0].key, ms[0].between + (":" + WriteValueOf(ms, rest))));
  }

  lemma BracketsAccepted(finite: string -> bool, x: Syntax, rest: string)
    requires Valid(finite, x) && x.Brackets? && x.items != []
    requires ParseElements(finite, WriteItems(x.items, rest), []) == Ok(Array([] + ItemsMean(x.items)), rest)
    ensures ParseValue(finite, Bare(x, rest)) == Ok(Mean(x), rest)
  {
    hide ParseChars, ParseMembers, ParseNumber, Write, ItemsMean, SkipSpace;
    var s := Bare(x, rest);
    var t := WriteItems(x.items, rest);
    NoSpaceToSkip(s);
    assert s[1..] == t;
    var first := x.items[0].value;
    var after := x.items[0].after + if |x.items| == 1 then "]" + rest else "," + WriteItems(x.items[1..], rest);
    SkipLeadInValue(finite, first, after);
    BareStarts(finite, first, after);
    ItemsSkip(finite, t, []);
    assert [] + ItemsMean(x.items) == ItemsMean(x.items);
  }

  lemma {:induction false} MembersAccepted(finite: string -> bool, ms: seq<Member>, rest: string,
                                           done: seq<(string, JsonValue)>)
    requires ms != [] && ValidMembers(finite, ms)
    ensures ParseMembers(finite, WriteMembers(ms, rest), done) == Ok(Object(done + MembersMean(ms)), rest)
    decreases ms, 1
  {
    hide ParseMembers, ParseValue, Write, WriteMembers, Mean, MembersMean, PiecesMean, SkipSpace;
    var m := ms[0];
    var mark := if |ms| == 1 then "}" else ",";
    var more := if |ms| == 1 then rest else WriteMembers(ms[1..], rest);
    var mean := (PiecesMean(m.key), Mean(m.value));
    SpaceThenMark(m.after, mark, more);
    ValueAccepted(finite, m.value, m.after + (mark + more));
    OneMemberAccepted(finite, ms, rest, done);
    FirstMemberMeans(ms, done);
    if |ms| == 1 {
    } else {
      MembersAccepted(finite, ms[1..], rest, done + [mean]);
    }
  }

  lemma FirstMemberMeans(ms: seq<Member>, done: seq<(string, JsonValue)>)
    requires ms != []
    ensures var mean := (PiecesMean(ms[0].key), Mean(ms[0].value));
      && done + MembersMean(ms) == done + [mean] + MembersMean(ms[1..])
      && (|ms| == 1 ==> done + MembersMean(ms) == done + [mean])
  {
    hide Mean, PiecesMean;
    AppendFirst(done, (PiecesMean(ms[0].key), Mean(ms[0].value)), MembersMean(ms[1..]));
  }

  lemma AppendFirst<T>(done: seq<T>, first: T, more: seq<T>)
    ensures done + ([first] + more) == done + [first] + more
    ensures more == [] ==> done + ([first] + more) == done + [first]
  {
  }

  lemma OneMemberAccepted(finite: string -> bool, ms: seq<Member>, rest: string, done: seq<(string, JsonValue)>)
    requires ms != [] && ValidMembers(finite, ms)
    requires var m := ms[0];
      ParseValue(finite, WriteValueOf(ms, rest))
      == Ok(Mean(m.value), m.after + if |ms| == 1 then "}" + rest else "," + WriteMembers(ms[1..], rest))
    ensures ParseMembers(finite, WriteMembers(ms, rest), done)
         == var all := done + [(PiecesMean(ms[0].key), Mean(ms[0].value))];
            if |ms| == 1 then Ok(Object(all), rest) else ParseMembers(finite, WriteMembers(ms[1..], rest), all)
  {
    hide ParseValue, ParseChars, WritePieces, WriteValueOf, SkipSpace, WriteMembers;
    var m := ms[0];
    var mark := if |ms| == 1 then "}" else ",";
    var more := if |ms| == 1 then rest else WriteMembers(ms[1..], rest);
    MembersStart(finite, ms, rest);
    StringAccepted(m.key, m.between + (":" + WriteValueOf(ms, rest)));
    SpaceThenMark(m.between, ":", WriteValueOf(ms, rest));
    SpaceThenMark(m.after, mark, more);
  }

  lemma {:induction false} ItemsAccepted(finite: string -> bool, xs: seq<Item>, rest: string, done: seq<JsonValue>)
    requires xs != [] && ValidItems(finite, xs)
    ensures ParseElements(finite, WriteItems(xs, rest), done) == Ok(Array(done + ItemsMean(xs)), rest)
    decreases xs, 1
  {
    hide ParseElements, ParseValue, Write, WriteItems;
    var x := xs[0];
    var mark := if |xs| == 1 then "]" else ",";
    var more := if |xs| == 1 then rest else WriteItems(xs[1..], rest);
    SpaceThenMark(x.after, mark, more);
    ValueAccepted(finite, x.value, x.after + (mark + more));
    OneItemAccepted(finite, xs, rest, done);
    AppendFirst(done, Mean(x.value), ItemsMean(xs[1..]));
    if |xs| == 1 {
    } else {
      ItemsAccepted(finite, xs[1..], rest, done + [Mean(x.value)]);
    }
  }

  lemma OneItemAccepted(finite: string -> bool, xs: seq<Item>, rest: string, done: seq<JsonValue>)
    requires xs != [] && ValidItems(finite, xs)
    requires var after := xs[0].after + if |xs| == 1 then "]" + rest else "," + WriteItems(xs[1..], rest);
      ParseValue(finite, Write(xs[0].value, after)) == Ok(Mean(xs[0].value), after)
    ensures ParseElements(finite, WriteItems(xs, rest), done)
         == var all := done + [Mean(xs[0].value)];
            if |xs| == 1 then Ok(Array(all), rest) else ParseElements(finite, WriteItems(xs[1..], rest), all)
  {
    hide ParseValue, Write, SkipSpace;
    var mark := if |xs| == 1 then "]" else ",";
    var more := if |xs| == 1 then rest else WriteItems(xs[1..], rest);
    SpaceThenMark(xs[0].after, mark, more);
  }

  // -------------------------------------------- what is accepted is written

  /** White space that was skipped. */
  lemma {:induction false} Skipped(s: string) returns (lead: string)
    ensures AllSpace(lead) && s == lead + SkipSpace(s)
  {
    if s == [] || !IsSpace(s[0]) {
      lead := "";
    } else {
      var more := Skipped(s[1..]);
      lead := [s[0]] + more;
    }
  }

  /** The first character of a string, however it is written, and the text after it. */
  lemma PieceRead(s: string, out: string) returns (p: Piece, more: string)
    requires ParseChars(s, out).Ok? && s[0] != '"'
    ensures ValidPiece(p) && s == PieceText(p) + more && |more| < |s|
  {
    p := if s[0] == '\\' then Escaping(s[1]) else Plain(s[0]);
    more := if s[0] == '\\' then s[2..] else s[1..];
  }

  lemma {:induction false} PiecesRead(s: string, out: string) returns (pieces: seq<Piece>)
    requires ParseChars(s, out).Ok?
    ensures var q := ParseChars(s, out);
      ValidKey(pieces) && s == WritePieces(pieces, "\"" + q.rest) && q.value == out + PiecesMean(pieces)
    decreases |s|
  {
    if s[0] == '"' {
      pieces := [];
      assert s == "\"" + s[1..] && out + "" == out;
    } else {
      var first, more := PieceRead(s, out);
      hide ParseChars, PieceText, PieceMean, ValidPiece, Unescaped;
      OnePiece(first, more, out);
      var others := PiecesRead(more, out + PieceMean(first));
      pieces := [first] + others;
      assert pieces[1..] == others;
      assert out + PieceMean(first) + PiecesMean(others) == out + PiecesMean(pieces);
    }
  }

  lemma StringRead(s: string) returns (pieces: seq<Piece>)
    requires StartsWith(s, "\"") && ParseChars(s[1..], "").Ok?
    ensures var q := ParseChars(s[1..], "");
      ValidKey(pieces) && s == WriteString(pieces, q.rest) && q.value == PiecesMean(pieces)
  {
    pieces := PiecesRead(s[1..], "");
    assert s == "\"" + s[1..];
    assert "" + PiecesMean(pieces) == PiecesMean(pieces);
  }

  lemma NoLead(x: Syntax, rest: string)
    requires x.lead == ""
    ensures Write(x, rest) == Bare(x, rest)
  {
    assert "" + Bare(x, rest) == Bare(x, rest);
  }

  /** What was written, and what comes next, of an accepted value. */
  ghost predicate Spells(finite: string -> bool, x: Syntax, s: string, q: Parsed<JsonValue>) {
    q.Ok? && Valid(finite, x) && s == Write(x, q.rest) && Mean(x) == q.value
  }

  lemma TokenRead(finite: string -> bool, s: string) returns (x: Syntax)
    requires s != [] && !IsSpace(s[0]) && s[0] != '{' && s[0] != '[' && s[0] != '"' && ParseValue(finite, s).Ok?
    ensures Spells(finite, x, s, ParseValue(finite, s)) && x.lead == ""
  {
    hide ParseMembers, ParseElements, ParseChars, NumberEnd, IsNumber;
    NoSpaceToSkip(s);
    var q := ParseValue(finite, s);
    x := Token("", q.value);
    if q.value.Number? {
      NumeralExactly(q.value.token);
    }
    if s[0] == '-' || IsDigit(s[0]) {
      var n := NumberEnd(s);
      assert s == s[..n] + s[n..];
    } else {
      var n := |Print(q.value)|;
      assert s == Print(q.value) + s[n..];
    }
    assert Write(x, q.rest) == Print(q.value) + q.rest;
  }

  /** Any value: what is written after the white space, with the white space in front. */
  lemma {:induction false} ValueRead(finite: string -> bool, s: string) returns (x: Syntax)
    requires ParseValue(finite, s).Ok?
    ensures Spells(finite, x, s, ParseValue(finite, s))
    decreases |s|, 1
  {
    hide ParseValue, Bare, Mean;
    var lead := Skipped(s);
    ValueSkip(finite, s);
    var bare := BareRead(finite, SkipSpace(s));
    x := bare.(lead := lead);
    LeadDoesNotMatter(finite, bare, lead, ParseValue(finite, s).rest);
  }

  lemma LeadDoesNotMatter(finite: string -> bool, x: Syntax, lead: string, rest: string)
    requires Valid(finite, x) && x.lead == "" && AllSpace(lead)
    ensures Valid(finite, x.(lead := lead)) && Mean(x.(lead := lead)) == Mean(x)
    ensures Write(x.(lead := lead), rest) == lead + Write(x, rest)
  {
    hide WriteMembers, WriteItems, WriteString, MembersMean, ItemsMean, PiecesMean;
    assert "" + Bare(x, rest) == Bare(x, rest);
    assert Bare(x.(lead := lead), rest) == Bare(x, rest);
  }

  lemma ValueSkip(finite: string -> bool, s: string)
    requires ParseValue(finite, s).Ok?
    ensures ParseValue(finite, SkipSpace(s)) == ParseValue(finite, s)
    ensures SkipSpace(s) != [] && !IsSpace(SkipSpace(s)[0])
  {
    hide SkipSpace, ParseChars, ParseMembers, ParseElements, ParseNumber;
    SkipTwice(s);
    SkippedStarts(s);
  }

  lemma {:induction false} SkippedStarts(s: string)
    ensures SkipSpace(s) != [] ==> !IsSpace(SkipSpace(s)[0])
  {
    if s == [] || !IsSpace(s[0]) {
    } else {
      SkippedStarts(s[1..]);
    }
  }

  lemma {:induction false} BareRead(finite: string -> bool, s: string) returns (x: Syntax)
    requires ParseValue(finite, s).Ok? && s != [] && !IsSpace(s[0])
    ensures Spells(finite, x, s, ParseValue(finite, s)) && x.lead == ""
    decreases |s|, 0
  {
    hide ParseValue, ParseMembers, ParseElements, Mean;
    if s[0] == '{' {
      var space := Skipped(s[1..]);
      if StartsWith(SkipSpace(s[1..]), "}") {
        x := EmptyBracesRead(finite, s, space);
      } else {
        BracesOpen(finite, s);
        var ms := MembersRead(finite, s[1..], []);
        x := BracesRead(finite, s, ms);
      }
    } else if s[0] == '[' {
      var space := Skipped(s[1..]);
      if StartsWith(SkipSpace(s[1..]), "]") {
        x := EmptyBracketsRead(finite, s, space);
      } else {
        BracketsOpen(finite, s);
        var xs := ItemsRead(finite, s[1..], []);
        x := BracketsRead(finite, s, xs);
      }
    } else if s[0] == '"' {
      x := QuotedRead(finite, s);
    } else {
      x := TokenRead(finite, s);
    }
  }

  lemma NothingMeant(x: Syntax)
    ensures x.Braces? && x.members == [] ==> Mean(x) == Object([])
    ensures x.Brackets? && x.items == [] ==> Mean(x) == Array([])
  {
    assert MembersMean([]) == [] && ItemsMean([]) == [];
  }

  lemma EmptyBracesRead(finite: string -> bool, s: string, space: string) returns (x: Syntax)
    requires s != [] && s[0] == '{' && AllSpace(space) && s[1..] == space + SkipSpace(s[1..])
    requires StartsWith(SkipSpace(s[1..]), "}")
    ensures Spells(finite, x, s, ParseValue(finite, s)) && x.lead == ""
  {
    NoSpaceToSkip(s);
    hide ParseMembers, ParseElements, ParseChars, ParseNumber, SkipSpace, AllSpace, IsNumeral;
    var t := SkipSpace(s[1..]);
    assert t == "}" + t[1..] && s == "{" + s[1..];
    x := Braces("", space, []);
    NoLead(x, t[1..]);
    NothingMeant(x);
    assert Valid(finite, x) && s == Bare(x, t[1..]);
    assert ParseValue(finite, s) == Ok(Object([]), t[1..]);
  }

  lemma EmptyBracketsRead(finite: string -> bool, s: string, space: string) returns (x: Syntax)
    requires s != [] && s[0] == '[' && AllSpace(space) && s[1..] == space + SkipSpace(s[1..])
    requires StartsWith(SkipSpace(s[1..]), "]")
    ensures Spells(finite, x, s, ParseValue(finite, s)) && x.lead == ""
  {
    NoSpaceToSkip(s);
    hide ParseMembers, ParseElements, ParseChars, ParseNumber, SkipSpace, AllSpace, IsNumeral;
    var t := SkipSpace(s[1..]);
    assert t == "]" + t[1..] && s == "[" + s[1..];
    x := Brackets("", space, []);
    NoLead(x, t[1..]);
    NothingMeant(x);
    assert Valid(finite, x) && s == Bare(x, t[1..]);
    assert ParseValue(finite, s) == Ok(Array([]), t[1..]);
  }

  lemma BracesOpen(finite: string -> bool, s: string)
    requires s != [] && s[0] == '{' && !StartsWith(SkipSpace(s[1..]), "}")
    ensures ParseValue(finite, s) == ParseMembers(finite, s[1..], [])
  {
    hide ParseMembers, ParseElements, ParseChars, ParseNumber;
    NoSpaceToSkip(s);
    MembersSkip(finite, s[1..], []);
  }

  lemma BracketsOpen(finite: string -> bool, s: string)
    requires s != [] && s[0] == '[' && !StartsWith(SkipSpace(s[1..]), "]")
    ensures ParseValue(finite, s) == ParseElements(finite, s[1..], [])
  {
    hide ParseMembers, ParseElements, ParseChars, ParseNumber;
    NoSpaceToSkip(s);
    ItemsSkip(finite, s[1..], []);
  }

  lemma BracesRead(finite: string -> bool, s: string, ms: seq<Member>) returns (x: Syntax)
    requires s != [] && s[0] == '{' && ms != [] && ValidMembers(finite, ms)
    requires var q := ParseValue(finite, s);
      q.Ok? && s[1..] == WriteMembers(ms, q.rest) && q.value == Object([] + MembersMean(ms))
    ensures Spells(finite, x, s, ParseValue(finite, s)) && x.lead == ""
  {
    hide ParseValue, WriteMembers, MembersMean, ValidMembers;
    x := Braces("", "", ms);
    NoLead(x, ParseValue(finite, s).rest);
    assert s == "{" + s[1..];
    assert [] + MembersMean(ms) == MembersMean(ms);
  }

  lemma BracketsRead(finite: string -> bool, s: string, xs: seq<Item>) returns (x: Syntax)
    requires s != [] && s[0] == '[' && xs != [] && ValidItems(finite, xs)
    requires var q := ParseValue(finite, s);
      q.Ok? && s[1..] == WriteItems(xs, q.rest) && q.value == Array([] + ItemsMean(xs))
    ensures Spells(finite, x, s, ParseValue(finite, s)) && x.lead == ""
  {
    hide ParseValue, WriteItems, ItemsMean, ValidItems;
    x := Brackets("", "", xs);
    NoLead(x, ParseValue(finite, s).rest);
    assert s == "[" + s[1..];
    assert [] + ItemsMean(xs) == ItemsMean(xs);
  }

  lemma QuotedRead(finite: string -> bool, s: string) returns (x: Syntax)
    requires s != [] && s[0] == '"' && ParseValue(finite, s).Ok?
    ensures Spells(finite, x, s, ParseValue(finite, s)) && x.lead == ""
  {
    hide ParseMembers, ParseElements, ParseChars, ParseNumber, WritePieces, PiecesMean;
    assert !IsSpace('"');
    NoSpaceToSkip(s);
    var pieces := StringRead(s);
    x := Quoted("", pieces);
    NoLead(x, ParseValue(finite, s).rest);
  }

  /** The parts of an accepted member, and what the parser makes of the rest. */
  lemma MemberRead(finite: string -> bool, s: string, done: seq<(string, JsonValue)>)
    returns (before: string, key: seq<Piece>, between: string, text: string)
    requires ParseMembers(finite, s, done).Ok?
    ensures AllSpace(before) && ValidKey(key) && AllSpace(between) && |text| < |s|
    ensures s == before + WriteString(key, between + (":" + text)) && ParseValue(finite, text).Ok?
    ensures var (value, v) := (ParseValue(finite, text).value, ParseValue(finite, text).rest);
      var w, all := SkipSpace(v), done + [(PiecesMean(key), value)];
      if StartsWith(w, "}") then ParseMembers(finite, s, done) == Ok(Object(all), w[1..])
      else StartsWith(w, ",") && ParseMembers(finite, s, done) == ParseMembers(finite, w[1..], all)
  {
    hide ParseValue, ParseChars, SkipSpace, WritePieces, PiecesMean;
    before := Skipped(s);
    var t := SkipSpace(s);
    key := StringRead(t);
    var r := ParseChars(t[1..], "").rest;
    between := Skipped(r);
    text := SkipSpace(r)[1..];
    assert SkipSpace(r) == ":" + text;
  }

  lemma {:induction false} MembersRead(finite: string -> bool, s: string, done: seq<(string, JsonValue)>)
    returns (ms: seq<Member>)
    requires ParseMembers(finite, s, done).Ok?
    ensures var q := ParseMembers(finite, s, done);
      && ms != [] && ValidMembers(finite, ms) && s == WriteMembers(ms, q.rest)
      && q.value == Object(done + MembersMean(ms))
    decreases |s|, 0
  {
    hide ParseMembers, ParseValue, SkipSpace, WriteString, Write, Mean, PiecesMean;
    var before, key, between, text := MemberRead(finite, s, done);
    var x := ValueRead(finite, text);
    var v := ParseValue(finite, text).rest;
    var after := Skipped(v);
    var w := SkipSpace(v);
    var m := Member(before, key, between, x, after);
    var mean := (PiecesMean(key), Mean(x));
    if StartsWith(w, "}") {
      ms := [m];
      assert w == "}" + w[1..];
      assert MembersMean(ms) == [mean];
    } else {
      assert w == "," + w[1..];
      var others := MembersRead(finite, w[1..], done + [mean]);
      ms := [m] + others;
      assert ms[1..] == others;
      AppendFirst(done, mean, MembersMean(others));
    }
  }

  lemma {:induction false} ItemsRead(finite: string -> bool, s: string, done: seq<JsonValue>) returns (xs: seq<Item>)
    requires ParseElements(finite, s, done).Ok?
    ensures var q := ParseElements(finite, s, done);
      && xs != [] && ValidItems(finite, xs) && s == WriteItems(xs, q.rest)
      && q.value == Array(done + ItemsMean(xs))
    decreases |s|, 2
  {
    hide ParseValue, SkipSpace, Write, Mean;
    var x := ValueRead(finite, s);
    var v := ParseValue(finite, s).rest;
    var after := Skipped(v);
    var w := SkipSpace(v);
    if StartsWith(w, "]") {
      xs := [Item(x, after)];
      assert w == "]" + w[1..];
      assert ItemsMean(xs) == [Mean(x)];
    } else {
      assert w == "," + w[1..];
      var others := ItemsRead(finite, w[1..], done + [Mean(x)]);
      xs := [Item(x, after)] + others;
      assert xs[1..] == others;
      AppendFirst(done, Mean(x), ItemsMean(others));
    }
  }

  // ------------------------------------------------------------ main result

  /** The text is this tree written out, and white space. */
  ghost predicate IsWritten(finite: string -> bool, text: string, v: JsonValue, x: Syntax, trail: string) {
    Valid(finite, x) && AllSpace(trail) && text == Write(x, trail) && Mean(x) == v
  }

  lemma {:induction false} TrailIsSkipped(trail: string)
    requires AllSpace(trail)
    ensures SkipSpace(trail) == [] && EndsNumber(trail)
  {
    if trail == [] {
    } else {
      TrailIsSkipped(trail[1..]);
    }
  }

  lemma {:induction false} SkippedAll(s: string)
    requires SkipSpace(s) == []
    ensures AllSpace(s)
  {
    if s == [] {
    } else {
      SkippedAll(s[1..]);
      assert s == [s[0]] + s[1..];
    }
  }

  /** A text is accepted for a value exactly when it writes that value out as some tree of tokens. */
  lemma AcceptedExactly(finite: string -> bool, text: string, v: JsonValue)
    ensures ParseDocument(finite, text) == Ok(v, "") <==> exists x, trail :: IsWritten(finite, text, v, x, trail)
  {
    hide ParseValue, Write, Mean, Valid;
    if ParseDocument(finite, text) == Ok(v, "") {
      var x := ValueRead(finite, text);
      var trail := ParseValue(finite, text).rest;
      SkippedAll(trail);
      assert IsWritten(finite, text, v, x, trail);
    }
    forall x, trail | IsWritten(finite, text, v, x, trail)
      ensures ParseDocument(finite, text) == Ok(v, "")
    {
      TrailIsSkipped(trail);
      ValueAccepted(finite, x, trail);
    }
  }
}
