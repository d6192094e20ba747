/**
 What the parser says of a text it does not take: the error names what is missing or
 wrong behind the part that is written as it should be.
 */
module JsonErrors {
  import opened Json
  import opened JsonRoundTrip
  import opened JsonSyntax

  /** `t` is what is left of `s` behind the white space `lead`. */
  predicate Trimmed(s: string, lead: string, t: string) {
    s == lead + t && AllSpace(lead) && (t != "" ==> t[0] !in BLANKS)
  }

  lemma TrimmedShrinks(s: string, lead: string, t: string)
    requires Trimmed(s, lead, t)
    ensures |t| <= |s|
  {
  }

  // ---------------------------------------------------------------- strings

  /** The end of a string that is none: nothing, a lone backslash, or an escape that stands for nothing. */
  predicate BadTail(tail: string, e: Error) {
    match e
    case UnterminatedString => tail == ""
    case UnterminatedEscape => tail == "\\"
    case UnsupportedEscape => |tail| >= 2 && tail[0] == '\\' && tail[1] !in ESCAPES
    case _ => false
  }

  /** Behind its opening quote: proper pieces, and then such an end. */
  ghost predicate StringFails(s: string, e: Error) {
    exists pieces, tail :: ValidKey(pieces) && s == WritePieces(pieces, tail) && BadTail(tail, e)
  }

  lemma {:induction false} StringFailsSo(s: string, out: string)
    requires ParseChars(s, out).Err?
    ensures StringFails(s, ParseChars(s, out).error)
  {
    var e := ParseChars(s, out).error;
    if s == "" || s == "\\" || (s[0] == '\\' && s[1] !in ESCAPES) {
      if s != "" && s != "\\" {
        EscapesExactly(s[1]);
      }
      assert WritePieces([], s) == s && BadTail(s, e);
    } else {
      var first := if s[0] == '\\' then Escaping(s[1]) else Plain(s[0]);
      var more := if s[0] == '\\' then s[2..] else s[1..];
      if s[0] == '\\' {
        EscapesExactly(s[1]);
      }
      assert s == PieceText(first) + more;
      StringFailsSo(more, out + PieceMean(first));
      var pieces, tail :| ValidKey(pieces) && more == WritePieces(pieces, tail) && BadTail(tail, e);
      assert ([first] + pieces)[1..] == pieces;
      assert WritePieces([first] + pieces, tail) == s;
    }
  }

  // ----------------------------------------------------------------- values

  /** Nothing, an object, array, string or number that fails, or the start of no value at all. */
  ghost predicate ValueFails(finite: string -> bool, s: string, e: Error)
    decreases |s|, 3
  {
    exists lead, t :: Trimmed(s, lead, t) && BareFails(finite, t, |s|, e)
  }

  /** The same where the white space has been skipped; `size` bounds the length. */
  ghost predicate BareFails(finite: string -> bool, t: string, size: nat, e: Error)
    decreases size, 2
  {
    |t| <= size &&
    if t == "" then e == UnexpectedEnd
    else if t[0] == '{' then
      exists lead, u :: Trimmed(t[1..], lead, u) && !("}" <= u) && |u| < size && MembersFail(finite, u, e)
    else if t[0] == '[' then
      exists lead, u :: Trimmed(t[1..], lead, u) && !("]" <= u) && |u| < size && ItemsFail(finite, u, e)
    else if t[0] == '"' then StringFails(t[1..], e)
    else if t[0] == '-' || '0' <= t[0] <= '9' then e == InvalidNumber
    else e == UnexpectedToken && !("true" <= t) && !("false" <= t) && !("null" <= t)
  }

  /** From a member on: no key, a key that fails, or what follows the key. */
  ghost predicate MembersFail(finite: string -> bool, s: string, e: Error)
    decreases |s|, 2
  {
    exists lead, t :: Trimmed(s, lead, t) && KeyFails(finite, t, |s|, e)
  }

  ghost predicate KeyFails(finite: string -> bool, t: string, size: nat, e: Error)
    decreases size, 1
  {
    |t| <= size &&
    if !("\"" <= t) then e == ExpectedKey
    else
      || StringFails(t[1..], e)
      || exists key, between, u ::
           ValidKey(key) && t == WriteString(key, between + u) && Trimmed(between + u, between, u) && |u| < size
           && ColonFails(finite, u, e)
  }

  /** No colon, a value that fails, or, behind a value, what is no brace; or the members behind a comma. */
  ghost predicate ColonFails(finite: string -> bool, u: string, e: Error)
    decreases |u|, 4
  {
    if !(":" <= u) then e == ExpectedColon
    else
      || ValueFails(finite, u[1..], e)
      || exists after, w ::
           EndsValueIn(finite, u[1..], after, w) && |w| < |u|
           && if "," <= w then MembersFail(finite, w[1..], e) else !("}" <= w) && e == ExpectedCommaOrBrace
  }

  /** From an element on. */
  ghost predicate ItemsFail(finite: string -> bool, s: string, e: Error)
    decreases |s|, 4
  {
    || ValueFails(finite, s, e)
    || exists after, w ::
         EndsValueIn(finite, s, after, w) && |w| < |s|
         && if "," <= w then ItemsFail(finite, w[1..], e) else !("]" <= w) && e == ExpectedCommaOrBracket
  }

  /** A value is written, then the white space `after`, then `w`. */
  ghost predicate EndsValueIn(finite: string -> bool, s: string, after: string, w: string) {
    Trimmed(after + w, after, w) && exists x :: Valid(finite, x) && s == Write(x, after + w)
  }

  /** A whole text fails as a value, or has something behind one. */
  ghost predicate DocumentFails(finite: string -> bool, s: string, e: Error) {
    || ValueFails(finite, s, e)
    || exists after, w :: EndsValueIn(finite, s, after, w) && w != "" && e == TrailingContent
  }

  // ------------------------------------------------------- the parser says so

  lemma Trims(s: string) returns (lead: string, t: string)
    ensures t == SkipSpace(s) && Trimmed(s, lead, t)
  {
    lead := Skipped(s);
    t := SkipSpace(s);
    SkippedStarts(s);
    if t != "" {
      SpaceExactly(t[0]);
    }
  }

  /** Behind an accepted value, up to the next mark. */
  lemma ValueEndsIn(finite: string -> bool, s: string) returns (after: string, w: string)
    requires ParseValue(finite, s).Ok?
    ensures w == SkipSpace(ParseValue(finite, s).rest) && EndsValueIn(finite, s, after, w) && |w| < |s|
  {
    var x := ValueRead(finite, s);
    hide ParseValue, Write, Mean;
    var rest := ParseValue(finite, s).rest;
    after, w := Trims(rest);
    TrimmedShrinks(rest, after, w);
  }

  lemma {:induction false} ValueFailsSo(finite: string -> bool, s: string)
    requires ParseValue(finite, s).Err?
    ensures ValueFails(finite, s, ParseValue(finite, s).error)
    decreases |s|, 3
  {
    var e := ParseValue(finite, s).error;
    var lead, t := Trims(s);
    TrimmedShrinks(s, lead, t);
    ValueOfTrimmed(finite, s);
    BareFailsSo(finite, t, |s|);
  }

  lemma ValueOfTrimmed(finite: string -> bool, s: string)
    ensures ParseValue(finite, SkipSpace(s)) == ParseValue(finite, s)
  {
    hide SkipSpace, ParseChars, ParseMembers, ParseElements, ParseNumber;
    SkipTwice(s);
  }

  lemma {:induction false} BareFailsSo(finite: string -> bool, t: string, size: nat)
    requires |t| <= size && (t != "" ==> t[0] !in BLANKS) && ParseValue(finite, t).Err?
    ensures BareFails(finite, t, size, ParseValue(finite, t).error)
    decreases size, 2
  {
    if t != "" {
      SpaceExactly(t[0]);
    }
    NoSpaceToSkip(t);
    if t == "" {
    } else if t[0] == '{' {
      BracesFailSo(finite, t, size);
    } else if t[0] == '[' {
      BracketsFailSo(finite, t, size);
    } else {
      hide ParseMembers, ParseElements, ParseNumber;
      ScalarFailsSo(finite, t, size);
    }
  }

  lemma ScalarFailsSo(finite: string -> bool, t: string, size: nat)
    requires 0 < |t| <= size && !IsSpace(t[0]) && ParseValue(finite, t).Err? && t[0] != '{' && t[0] != '['
    ensures BareFails(finite, t, size, ParseValue(finite, t).error)
  {
    NoSpaceToSkip(t);
    hide SkipSpace, ParseMembers, ParseElements, NumberEnd, IsNumber;
    if t[0] == '"' {
      StringFailsSo(t[1..], "");
    }
  }

  lemma BracesFailSo(finite: string -> bool, t: string, size: nat)
    requires 0 < |t| <= size && t[0] == '{' && ParseValue(finite, t).Err?
    ensures BareFails(finite, t, size, ParseValue(finite, t).error)
    decreases size, 1
  {
    NoSpaceToSkip(t);
    var lead, u := Trims(t[1..]);
    TrimmedShrinks(t[1..], lead, u);
    hide SkipSpace, ParseMembers, ParseElements, ParseChars, ParseNumber;
    MembersFailSo(finite, u, []);
  }

  lemma BracketsFailSo(finite: string -> bool, t: string, size: nat)
    requires 0 < |t| <= size && t[0] == '[' && ParseValue(finite, t).Err?
    ensures BareFails(finite, t, size, ParseValue(finite, t).error)
    decreases size, 1
  {
    NoSpaceToSkip(t);
    var lead, u := Trims(t[1..]);
    TrimmedShrinks(t[1..], lead, u);
    hide SkipSpace, ParseMembers, ParseElements, ParseChars, ParseNumber;
    ItemsFailSo(finite, u, []);
  }

  lemma {:induction false} MembersFailSo(finite: string -> bool, s: string, done: seq<(string, JsonValue)>)
    requires ParseMembers(finite, s, done).Err?
    ensures MembersFail(finite, s, ParseMembers(finite, s, done).error)
    decreases |s|, 2
  {
    var e := ParseMembers(finite, s, done).error;
    var lead, t := Trims(s);
    TrimmedShrinks(s, lead, t);
    hide SkipSpace, ParseValue;
    if StartsWith(t, "\"") {
      if ParseChars(t[1..], "").Err? {
        StringFailsSo(t[1..], "");
      } else {
        var key := StringRead(t);
        var rest := ParseChars(t[1..], "").rest;
        var between, u := Trims(rest);
        TrimmedShrinks(rest, between, u);
        ColonFailsSo(finite, s, done);
      }
    }
    assert KeyFails(finite, t, |s|, e);
  }

  /** Behind the key of the member at the start of `s`. */
  lemma {:induction false} ColonFailsSo(finite: string -> bool, s: string, done: seq<(string, JsonValue)>)
    requires StartsWith(SkipSpace(s), "\"") && ParseChars(SkipSpace(s)[1..], "").Ok?
    requires ParseMembers(finite, s, done).Err?
    ensures ColonFails(finite, SkipSpace(ParseChars(SkipSpace(s)[1..], "").rest), ParseMembers(finite, s, done).error)
    decreases |s|, 1
  {
    var key := ParseChars(SkipSpace(s)[1..], "").value;
    var u := SkipSpace(ParseChars(SkipSpace(s)[1..], "").rest);
    hide SkipSpace, ParseValue, ParseChars;
    if StartsWith(u, ":") {
      if ParseValue(finite, u[1..]).Err? {
        ValueFailsSo(finite, u[1..]);
      } else {
        var after, w := ValueEndsIn(finite, u[1..]);
        if StartsWith(w, ",") {
          MembersFailSo(finite, w[1..], done + [(key, ParseValue(finite, u[1..]).value)]);
        }
      }
    }
  }

  lemma {:induction false} ItemsFailSo(finite: string -> bool, s: string, done: seq<JsonValue>)
    requires ParseElements(finite, s, done).Err?
    ensures ItemsFail(finite, s, ParseElements(finite, s, done).error)
    decreases |s|, 4
  {
    hide SkipSpace, ParseValue;
    if ParseValue(finite, s).Err? {
      ValueFailsSo(finite, s);
    } else {
      var after, w := ValueEndsIn(finite, s);
      if StartsWith(w, ",") {
        ItemsFailSo(finite, w[1..], done + [ParseValue(finite, s).value]);
      }
    }
  }

  /** The error of a refused text is one that its writing calls for. */
  lemma RefusalIsExplained(finite: string -> bool, text: string)
    requires ParseDocument(finite, text).Err?
    ensures DocumentFails(finite, text, ParseDocument(finite, text).error)
  {
    hide ParseValue;
    if ParseValue(finite, text).Err? {
      ValueFailsSo(finite, text);
    } else {
      var after, w := ValueEndsIn(finite, text);
    }
  }
}
