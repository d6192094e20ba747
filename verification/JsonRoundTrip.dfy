/** Parsing what was printed gives back the value, whatever text follows it. */
module JsonRoundTrip {
  import opened Json

  // ---------------------------------------------------------------- strings

  lemma EscapeAppend(text: string, c: char)
    ensures Escape(text + [c]) == Escape(text) + Escaped(c)
  {
    assert (text + [c])[..|text|] == text;
  }

  lemma {:induction false} EscapeFront(c: char, text: string)
    ensures Escape([c] + text) == Escaped(c) + Escape(text)
  {
    hide Escaped, Escape;
    EscapeNone();
    if text == [] {
      EscapeAppend([], c);
      assert [c] + text == [] + [c];
    } else {
      var before, last := text[..|text| - 1], text[|text| - 1];
      EscapeFront(c, before);
      EscapeAppend([c] + before, last);
      EscapeAppend(before, last);
      assert [c] + text == ([c] + before) + [last];
      assert text == before + [last];
    }
  }

  lemma EscapeNone()
    ensures Escape([]) == []
  {
  }

  lemma OneChar(c: char, after: string, out: string)
    ensures ParseChars(Escaped(c) + after, out) == ParseChars(after, out + [c])
  {
    var s := Escaped(c) + after;
    if |Escaped(c)| == 2 {
      assert s[2..] == after && s[1] == Escaped(c)[1];
    } else {
      assert s[1..] == after;
    }
  }

  /** The parser undoes the escaper on every string. */
  lemma {:induction false} CharsRoundTrip(text: string, rest: string, out: string)
    ensures ParseChars(Escape(text) + "\"" + rest, out) == Ok(out + text, rest)
  {
    if text == [] {
      var s := Escape(text) + "\"" + rest;
      assert s[0] == '"' && s[1..] == rest;
      assert out + text == out;
    } else {
      EscapeFront(text[0], text[1..]);
      assert [text[0]] + text[1..] == text;
      var after := Escape(text[1..]) + "\"" + rest;
      assert Escape(text) + "\"" + rest == Escaped(text[0]) + after;
      OneChar(text[0], after, out);
      CharsRoundTrip(text[1..], rest, out + [text[0]]);
      assert out + [text[0]] + text[1..] == out + text;
    }
  }

  lemma QuoteRoundTrip(text: string, rest: string)
    ensures StartsWith(Quote(text) + rest, "\"")
    ensures ParseChars((Quote(text) + rest)[1..], "") == Ok(text, rest)
  {
    CharsRoundTrip(text, rest, "");
    assert (Quote(text) + rest)[1..] == Escape(text) + "\"" + rest;
    assert "" + text == text;
  }

  /** What is escaped fits on a line. */
  lemma {:induction false} EscapedIsOneLine(text: string)
    ensures forall c :: c in Escape(text) ==> c != '\n' && c != '\r' && c != '\t'
  {
    if text != [] {
      EscapedIsOneLine(text[..|text| - 1]);
    }
  }

  // ---------------------------------------------------------------- numbers

  /** Text that does not carry a number on. */
  predicate EndsNumber(rest: string) {
    rest != [] ==> !IsDigit(rest[0]) && rest[0] != '.' && rest[0] != 'e' && rest[0] != 'E'
  }

  lemma {:induction false} DigitsFromAppend(token: string, rest: string, i: nat)
    requires i <= |token| && (rest != [] ==> !IsDigit(rest[0]))
    ensures DigitsFrom(token + rest, i) == DigitsFrom(token, i)
    decreases |token| - i
  {
    if i < |token| && IsDigit(token[i]) {
      assert (token + rest)[i] == token[i];
      DigitsFromAppend(token, rest, i + 1);
    } else {
      assert i < |token| ==> (token + rest)[i] == token[i];
    }
  }

  lemma NumberEndAppend(token: string, rest: string)
    requires IsNumber(token) && EndsNumber(rest)
    ensures NumberEnd(token + rest) == |token|
  {
    hide DigitsFrom;
    var s := token + rest;
    assert forall i :: 0 <= i < |token| ==> s[i] == token[i];
    assert rest != [] ==> s[|token|] == rest[0];
    var i := AfterSign(token);
    DigitsFromAppend(token, rest, i);
    var j := DigitsFrom(token, i);
    if j < |token| && token[j] == '.' {
      DigitsFromAppend(token, rest, j + 1);
    }
    var k := AfterFraction(token, j);
    if k < |token| {
      DigitsFromAppend(token, rest, ExponentDigits(token, k));
    }
  }

  lemma NumberRoundTrip(finite: string -> bool, token: string, rest: string)
    requires IsNumber(token) && finite(token) && EndsNumber(rest)
    ensures token != [] && (token[0] == '-' || IsDigit(token[0]))
    ensures ParseNumber(finite, token + rest) == Ok(Number(token), rest)
  {
    NumberEndAppend(token, rest);
    assert (token + rest)[..|token|] == token && (token + rest)[|token|..] == rest;
  }

  // ----------------------------------------------------------------- values

  /** What the caller may put after a printed value: nothing, or a mark that ends any value. */
  predicate EndsValue(rest: string) {
    rest != [] ==> rest[0] == ',' || rest[0] == '}' || rest[0] == ']'
  }

  lemma NoSpaceToSkip(s: string)
    requires s != [] ==> !IsSpace(s[0])
    ensures SkipSpace(s) == s
  {
  }

  /** A printed value starts with a character of its own kind. */
  lemma PrintStarts(finite: string -> bool, v: JsonValue)
    requires Printable(finite, v)
    ensures Print(v) != [] && !IsSpace(Print(v)[0]) && Print(v)[0] != '}' && Print(v)[0] != ']' && Print(v)[0] != ','
  {
    if v.Text? {
      assert Quote(v.text)[0] == '"';
    }
  }

  lemma LeafRoundTrip(finite: string -> bool, v: JsonValue, rest: string)
    requires Printable(finite, v) && EndsValue(rest) && (v.Null? || v.Bool? || v.Number? || v.Text?)
    ensures ParseValue(finite, Print(v) + rest) == Ok(v, rest)
  {
    hide ParseMembers, ParseElements, ParseChars, ParseNumber, Escape, IsNumber;
    var s := Print(v) + rest;
    PrintStarts(finite, v);
    assert s[0] == Print(v)[0] && s[|Print(v)|..] == rest;
    NoSpaceToSkip(s);
    match v
    case Null => assert "null" <= s;
    case Bool(b) => assert (if b then "true" else "false") <= s;
    case Number(token) => NumberRoundTrip(finite, token, rest);
    case Text(text) => QuoteRoundTrip(text, rest);
  }

  /** The members from `i` on, without the comma before them. */
  function MembersText(v: JsonValue, i: nat): string
    requires v.Object? && i < |v.members|
  {
    Quote(v.members[i].0) + ":" + Print(v.members[i].1) + PrintMembers(v, i + 1)
  }

  /** One member read, and on to what follows it. */
  lemma OneMember(finite: string -> bool, key: string, text: string, value: JsonValue, more: string,
                  members: seq<(string, JsonValue)>)
    requires ParseValue(finite, text + more) == Ok(value, more)
    requires more != [] && (more[0] == '}' || more[0] == ',')
    ensures ParseMembers(finite, Quote(key) + ":" + text + more, members)
         == if more[0] == '}' then Ok(Object(members + [(key, value)]), more[1..])
            else ParseMembers(finite, more[1..], members + [(key, value)])
  {
    hide Escape, ParseValue, ParseChars;
    var tail := ":" + (text + more);
    var s := Quote(key) + tail;
    assert Quote(key) + ":" + text + more == s;
    QuoteRoundTrip(key, tail);
    assert s[0] == '"';
    NoSpaceToSkip(s);
    NoSpaceToSkip(tail);
    assert tail[1..] == text + more;
    NoSpaceToSkip(more);
  }

  lemma {:induction false} MembersRoundTrip(finite: string -> bool, v: JsonValue, i: nat, rest: string)
    requires v.Object? && Printable(finite, v) && i < |v.members|
    ensures ParseMembers(finite, MembersText(v, i) + rest, v.members[..i]) == Ok(v, rest)
    decreases v, 0, |v.members| - i
  {
    hide Escape, ParseValue, ParseMembers, Print, Quote;
    var key, value := v.members[i].0, v.members[i].1;
    var more := PrintMembers(v, i + 1) + rest;
    assert MembersText(v, i) + rest == Quote(key) + ":" + Print(value) + more;
    assert v.members[..i] + [(key, value)] == v.members[..i + 1];
    if i + 1 == |v.members| {
      assert more == "}" + rest && more[1..] == rest;
      assert v.members[..i + 1] == v.members;
      RoundTrip(finite, value, more);
      OneMember(finite, key, Print(value), value, more, v.members[..i]);
    } else {
      assert more == "," + (MembersText(v, i + 1) + rest);
      assert more[1..] == MembersText(v, i + 1) + rest;
      RoundTrip(finite, value, more);
      OneMember(finite, key, Print(value), value, more, v.members[..i]);
      MembersRoundTrip(finite, v, i + 1, rest);
    }
  }

  function ElementsText(v: JsonValue, i: nat): string
    requires v.Array? && i < |v.elements|
  {
    Print(v.elements[i]) + PrintElements(v, i + 1)
  }

  lemma OneElement(finite: string -> bool, text: string, value: JsonValue, more: string, elements: seq<JsonValue>)
    requires ParseValue(finite, text + more) == Ok(value, more)
    requires more != [] && (more[0] == ']' || more[0] == ',')
    ensures ParseElements(finite, text + more, elements)
         == if more[0] == ']' then Ok(Array(elements + [value]), more[1..])
            else ParseElements(finite, more[1..], elements + [value])
  {
    hide ParseValue;
    NoSpaceToSkip(more);
  }

  lemma {:induction false} ElementsRoundTrip(finite: string -> bool, v: JsonValue, i: nat, rest: string)
    requires v.Array? && Printable(finite, v) && i < |v.elements|
    ensures ParseElements(finite, ElementsText(v, i) + rest, v.elements[..i]) == Ok(v, rest)
    decreases v, 0, |v.elements| - i
  {
    hide ParseValue, ParseElements, Print;
    var value := v.elements[i];
    var more := PrintElements(v, i + 1) + rest;
    assert ElementsText(v, i) + rest == Print(value) + more;
    assert v.elements[..i] + [value] == v.elements[..i + 1];
    if i + 1 == |v.elements| {
      assert more == "]" + rest && more[1..] == rest;
      assert v.elements[..i + 1] == v.elements;
      RoundTrip(finite, value, more);
      OneElement(finite, Print(value), value, more, v.elements[..i]);
    } else {
      assert more == "," + (ElementsText(v, i + 1) + rest);
      assert more[1..] == ElementsText(v, i + 1) + rest;
      RoundTrip(finite, value, more);
      OneElement(finite, Print(value), value, more, v.elements[..i]);
      ElementsRoundTrip(finite, v, i + 1, rest);
    }
  }

  lemma {:induction false} ObjectRoundTrip(finite: string -> bool, v: JsonValue, rest: string)
    requires v.Object? && Printable(finite, v)
    ensures ParseValue(finite, Print(v) + rest) == Ok(v, rest)
    decreases v, 0, |v.members| + 1
  {
    hide Escape, ParseMembers, Quote, ParseNumber, ParseElements, ParseChars;
    var s := Print(v) + rest;
    assert s == "{" + (PrintMembers(v, 0) + rest);
    assert s[1..] == PrintMembers(v, 0) + rest;
    NoSpaceToSkip(s);
    if v.members == [] {
      assert s[1..] == "}" + rest && s[1..][1..] == rest;
      NoSpaceToSkip(s[1..]);
    } else {
      assert PrintMembers(v, 0) == MembersText(v, 0);
      QuoteStarts(v.members[0].0);
      assert s[1..][0] == '"';
      NoSpaceToSkip(s[1..]);
      MembersRoundTrip(finite, v, 0, rest);
      assert v.members[..0] == [];
    }
  }

  lemma QuoteStarts(text: string)
    ensures Quote(text) != [] && Quote(text)[0] == '"'
  {
  }

  lemma {:induction false} ArrayRoundTrip(finite: string -> bool, v: JsonValue, rest: string)
    requires v.Array? && Printable(finite, v)
    ensures ParseValue(finite, Print(v) + rest) == Ok(v, rest)
    decreases v, 0, |v.elements| + 1
  {
    hide Escape, ParseMembers, Quote, ParseNumber, ParseElements, ParseChars;
    var s := Print(v) + rest;
    assert s == "[" + (PrintElements(v, 0) + rest);
    assert s[1..] == PrintElements(v, 0) + rest;
    NoSpaceToSkip(s);
    if v.elements == [] {
      assert s[1..] == "]" + rest && s[1..][1..] == rest;
      NoSpaceToSkip(s[1..]);
    } else {
      assert PrintElements(v, 0) == ElementsText(v, 0);
      PrintStarts(finite, v.elements[0]);
      assert s[1..][0] == Print(v.elements[0])[0];
      NoSpaceToSkip(s[1..]);
      ElementsRoundTrip(finite, v, 0, rest);
      assert v.elements[..0] == [];
    }
  }

  /** Parsing a printed value gives back the value and leaves what follows it. */
  lemma {:induction false} RoundTrip(finite: string -> bool, v: JsonValue, rest: string)
    requires Printable(finite, v) && EndsValue(rest)
    ensures ParseValue(finite, Print(v) + rest) == Ok(v, rest)
    decreases v, 1
  {
    hide Print, ParseValue;
    if v.Object? {
      ObjectRoundTrip(finite, v, rest);
    } else if v.Array? {
      ArrayRoundTrip(finite, v, rest);
    } else {
      LeafRoundTrip(finite, v, rest);
    }
  }

  /** A whole document parses back to the value it was printed from. */
  lemma DocumentRoundTrip(finite: string -> bool, v: JsonValue)
    requires Printable(finite, v)
    ensures ParseDocument(finite, Print(v)) == Ok(v, "")
  {
    RoundTrip(finite, v, "");
    assert Print(v) + "" == Print(v);
  }

  /** So no two printable values have the same compact form. */
  lemma PrintIsInjective(finite: string -> bool, v: JsonValue, w: JsonValue)
    requires Printable(finite, v) && Printable(finite, w) && Print(v) == Print(w)
    ensures v == w
  {
    DocumentRoundTrip(finite, v);
    DocumentRoundTrip(finite, w);
  }
}
