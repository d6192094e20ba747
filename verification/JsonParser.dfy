/** The JSON parser, moving a position through its input, and the string escaper. */
module JsonParsers {
  import opened Json

  datatype Result<T> = Success(value: T) | Failure(error: Error)

  method EscapeJson(value: string) returns (out: string)
    ensures out == Escape(value)
  {
    out := "";
    for i := 0 to |value|
      invariant out == Escape(value[..i])
    {
      assert value[..i + 1][..i] == value[..i];
      var c := value[i];
      if c == '"' {
        out := out + "\\\"";
      } else if c == '\\' {
        out := out + "\\\\";
      } else if c == '\n' {
        out := out + "\\n";
      } else if c == '\r' {
        out := out + "\\r";
      } else if c == '\t' {
        out := out + "\\t";
      } else {
        out := out + [c];
      }
    }
    assert value[..|value|] == value;
  }

  /** The first member with a name, if any. */
  method Find(value: JsonValue, key: string) returns (found: bool, member: JsonValue)
    ensures found <==> value.Object? && FindFrom(value.members, key, 0) < |value.members|
    ensures found ==> member == value.members[FindFrom(value.members, key, 0)].1
  {
    if !value.Object? {
      return false, Null;
    }
    var i := 0;
    while i < |value.members|
      invariant i <= |value.members|
      invariant FindFrom(value.members, key, i) == FindFrom(value.members, key, 0)
    {
      if value.members[i].0 == key {
        return true, value.members[i].1;
      }
      i := i + 1;
    }
    return false, Null;
  }

  class JsonParser {
    const input: string
    const finite: string -> bool
    var pos: nat

    constructor (input: string, finite: string -> bool)
      ensures Valid() && pos == 0 && this.input == input && this.finite == finite
    {
      this.input, this.finite, pos := input, finite, 0;
    }

    predicate Valid()
      reads this
    {
      pos <= |input|
    }

    function Left(): string
      reads this
      requires Valid()
    {
      input[pos..]
    }

    /** The parser got what a function of the text left got, and stands after it. */
    ghost predicate Matches<T>(result: Result<T>, q: Parsed<T>)
      reads this
    {
      Valid() && match q
                 case Ok(value, rest) => result == Success(value) && Left() == rest
                 case Err(error) => result == Failure(error)
    }

    method SkipWhitespace()
      requires Valid()
      modifies this
      ensures Valid() && pos >= old(pos) && Left() == SkipSpace(old(Left()))
    {
      while pos < |input| && IsSpace(input[pos])
        invariant Valid() && pos >= old(pos) && SkipSpace(Left()) == SkipSpace(old(Left()))
      {
        assert Left()[1..] == input[pos + 1..];
        pos := pos + 1;
      }
    }

    method Consume(expected: char) returns (ok: bool)
      requires Valid()
      modifies this
      ensures Valid() && ok == StartsWith(old(Left()), [expected])
      ensures if ok then pos == old(pos) + 1 && Left() == old(Left())[1..] else pos == old(pos)
    {
      if pos < |input| && input[pos] == expected {
        pos := pos + 1;
        return true;
      }
      return false;
    }

    method ConsumeLiteral(literal: string) returns (ok: bool)
      requires Valid()
      modifies this
      ensures Valid() && ok == StartsWith(old(Left()), literal)
      ensures if ok then pos == old(pos) + |literal| && Left() == old(Left())[|literal|..] else pos == old(pos)
    {
      var n := if |input| - pos < |literal| then |input| - pos else |literal|;
      if input[pos..pos + n] == literal {
        assert Left()[..n] == literal;
        pos := pos + |literal|;
        return true;
      }
      assert literal <= Left() ==> Left()[..|literal|] == literal;
      return false;
    }

    /** The characters of a string after its opening quote. */
    method ParseChars() returns (result: Result<string>)
      requires Valid()
      modifies this
      ensures Matches(result, Json.ParseChars(old(Left()), ""))
      ensures result.Success? ==> pos > old(pos)
    {
      var out := "";
      ghost var whole := Json.ParseChars(Left(), "");
      while pos < |input|
        invariant Valid() && pos >= old(pos) && Json.ParseChars(Left(), out) == whole
      {
        ghost var here := Left();
        var c := input[pos];
        pos := pos + 1;
        assert Left() == here[1..];
        if c == '"' {
          return Success(out);
        }
        if c != '\\' {
          out := out + [c];
          continue;
        }
        if pos >= |input| {
          return Failure(UnterminatedEscape);
        }
        var escaped := input[pos];
        pos := pos + 1;
        assert Left() == here[2..] && here[1] == escaped;
        var plain := Unescaped(escaped);
        if plain == "" {
          return Failure(UnsupportedEscape);
        }
        out := out + plain;
      }
      return Failure(UnterminatedString);
    }

    method SkipDigits()
      requires Valid()
      modifies this
      ensures Valid() && pos == DigitsFrom(input, old(pos))
    {
      while pos < |input| && IsDigit(input[pos])
        invariant Valid() && DigitsFrom(input, pos) == DigitsFrom(input, old(pos))
      {
        pos := pos + 1;
      }
    }

    /** The sign, the digits and the fraction of a number. */
    method SkipMantissa()
      requires Valid()
      modifies this
      ensures Valid() && pos == old(pos) + AfterFraction(old(Left()), DigitsFrom(old(Left()), AfterSign(old(Left()))))
    {
      hide DigitsFrom;
      ghost var start := pos;
      ghost var s := Left();
      assert forall i :: 0 <= i < |s| ==> s[i] == input[start + i];
      if pos < |input| && input[pos] == '-' {
        pos := pos + 1;
      }
      DigitsFromShift(input, start, pos - start);
      SkipDigits();
      if pos < |input| && input[pos] == '.' {
        pos := pos + 1;
        DigitsFromShift(input, start, pos - start);
        SkipDigits();
      }
    }

    /** The exponent of a number that began at `start`, if it has one. */
    method SkipExponent(ghost start: nat)
      requires Valid() && start <= pos
      modifies this
      ensures Valid() && pos == start + AfterExponent(input[start..], old(pos) - start)
    {
      hide DigitsFrom;
      ghost var s := input[start..];
      assert forall i :: 0 <= i < |s| ==> s[i] == input[start + i];
      if pos < |input| && (input[pos] == 'e' || input[pos] == 'E') {
        pos := pos + 1;
        if pos < |input| && (input[pos] == '+' || input[pos] == '-') {
          pos := pos + 1;
        }
        DigitsFromShift(input, start, pos - start);
        SkipDigits();
      }
    }

    method ParseNumber() returns (result: Result<JsonValue>)
      requires Valid() && pos < |input| && (input[pos] == '-' || IsDigit(input[pos]))
      modifies this
      ensures Matches(result, Json.ParseNumber(finite, old(Left())))
      ensures result.Success? ==> pos > old(pos)
    {
      hide IsNumber, AfterFraction, AfterExponent, DigitsFrom, AfterSign;
      ghost var s := Left();
      var start := pos;
      SkipMantissa();
      SkipExponent(start);
      var token := input[start..pos];
      assert token == s[..NumberEnd(s)] && Left() == s[|token|..];
      if !(IsNumber(token) && finite(token)) {
        return Failure(InvalidNumber);
      }
      return Success(Number(token));
    }

    static lemma {:induction false} DigitsFromShift(input: string, start: nat, i: nat)
      requires start + i <= |input|
      ensures DigitsFrom(input, start + i) == start + DigitsFrom(input[start..], i)
      decreases |input| - start - i
    {
      if start + i < |input| && IsDigit(input[start + i]) {
        DigitsFromShift(input, start, i + 1);
      }
    }

    static lemma NoSpaceFirst(s: string)
      requires s != [] && !IsSpace(s[0])
      ensures SkipSpace(s) == s
    {
    }

    static lemma {:induction false} SkipSpaceTwice(s: string)
      ensures SkipSpace(SkipSpace(s)) == SkipSpace(s)
    {
      if s != [] && IsSpace(s[0]) {
        SkipSpaceTwice(s[1..]);
      }
    }

    method ParseObject() returns (result: Result<JsonValue>)
      requires Valid() && pos < |input| && input[pos] == '{'
      modifies this
      ensures Matches(result, Json.ParseValue(finite, old(Left())))
      ensures result.Success? ==> pos > old(pos)
      decreases |input| - pos, 0
    {
      hide SkipSpace, Json.ParseChars, Json.ParseNumber, ParseElements;
      ghost var whole := Json.ParseValue(finite, Left());
      NoSpaceFirst(Left());
      ghost var after := Left()[1..];
      pos := pos + 1;
      assert Left() == after;
      SkipWhitespace();
      var closed := Consume('}');
      if closed {
        return Success(Object([]));
      }
      var members: seq<(string, JsonValue)> := [];
      while true
        invariant Valid() && pos > old(pos) && ParseMembers(finite, Left(), members) == whole
        decreases |input| - pos
      {
        SkipWhitespace();
        if pos >= |input| || input[pos] != '"' {
          return Failure(ExpectedKey);
        }
        ghost var within := Left()[1..];
        pos := pos + 1;
        assert Left() == within;
        var key := ParseChars();
        if key.Failure? {
          return Failure(key.error);
        }
        SkipWhitespace();
        var colon := Consume(':');
        if !colon {
          return Failure(ExpectedColon);
        }
        var member := ParseValue();
        if member.Failure? {
          return member;
        }
        members := members + [(key.value, member.value)];
        SkipWhitespace();
        closed := Consume('}');
        if closed {
          return Success(Object(members));
        }
        var comma := Consume(',');
        if !comma {
          return Failure(ExpectedCommaOrBrace);
        }
      }
    }

    method ParseArray() returns (result: Result<JsonValue>)
      requires Valid() && pos < |input| && input[pos] == '['
      modifies this
      ensures Matches(result, Json.ParseValue(finite, old(Left())))
      ensures result.Success? ==> pos > old(pos)
      decreases |input| - pos, 0
    {
      hide SkipSpace, Json.ParseChars, Json.ParseNumber, ParseMembers;
      ghost var whole := Json.ParseValue(finite, Left());
      NoSpaceFirst(Left());
      ghost var after := Left()[1..];
      pos := pos + 1;
      assert Left() == after;
      SkipWhitespace();
      var closed := Consume(']');
      if closed {
        return Success(Array([]));
      }
      var elements: seq<JsonValue> := [];
      while true
        invariant Valid() && pos > old(pos) && ParseElements(finite, Left(), elements) == whole
        decreases |input| - pos
      {
        var entry := ParseValue();
        if entry.Failure? {
          return entry;
        }
        elements := elements + [entry.value];
        SkipWhitespace();
        closed := Consume(']');
        if closed {
          return Success(Array(elements));
        }
        var comma := Consume(',');
        if !comma {
          return Failure(ExpectedCommaOrBracket);
        }
      }
    }

    method ParseValue() returns (result: Result<JsonValue>)
      requires Valid()
      modifies this
      ensures Matches(result, Json.ParseValue(finite, old(Left())))
      ensures result.Success? ==> pos > old(pos)
      decreases |input| - pos, 1
    {
      hide SkipSpace, Json.ParseChars, Json.ParseNumber, ParseMembers, ParseElements;
      SkipSpaceTwice(Left());
      SkipWhitespace();
      if pos >= |input| {
        return Failure(UnexpectedEnd);
      }
      var c := input[pos];
      if c == '{' {
        result := ParseObject();
        return;
      }
      if c == '[' {
        result := ParseArray();
        return;
      }
      if c == '"' {
        pos := pos + 1;
        var text := ParseChars();
        return match text case Success(t) => Success(Text(t)) case Failure(e) => Failure(e);
      }
      if c == '-' || IsDigit(c) {
        result := ParseNumber();
        return;
      }
      var yes := ConsumeLiteral("true");
      if yes {
        return Success(Bool(true));
      }
      var no := ConsumeLiteral("false");
      if no {
        return Success(Bool(false));
      }
      var nothing := ConsumeLiteral("null");
      if nothing {
        return Success(Null);
      }
      return Failure(UnexpectedToken);
    }

    method Parse() returns (result: Result<JsonValue>)
      requires pos == 0
      modifies this
      ensures result == match ParseDocument(finite, input)
                        case Ok(value, _) => Success(value)
                        case Err(error) => Failure(error)
    {
      assert Left() == input;
      SkipSpaceTwice(input);
      SkipWhitespace();
      result := ParseValue();
      if result.Failure? {
        return;
      }
      SkipWhitespace();
      assert pos == |input| <==> Left() == [];
      if pos != |input| {
        return Failure(TrailingContent);
      }
    }
  }
}
