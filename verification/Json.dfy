/**
 The renderer's JSON values, their compact form, and its parser as functions of
 the text that is left. Numbers are kept as their tokens; whether a token's value
 is finite as a double is the parameter `finite`.
 */
module Json {

  datatype JsonValue =
    | Null
    | Bool(boolean: bool)
    | Number(token: string)
    | Text(text: string)
    | Object(members: seq<(string, JsonValue)>)
    | Array(elements: seq<JsonValue>)

  datatype Error =
    | TrailingContent
    | UnexpectedEnd
    | UnexpectedToken
    | ExpectedKey
    | ExpectedColon
    | ExpectedCommaOrBrace
    | ExpectedCommaOrBracket
    | UnterminatedEscape
    | UnsupportedEscape
    | UnterminatedString
    | InvalidNumber

  /** A value and the text after it, or why there is none. */
  datatype Parsed<T> = Ok(value: T, rest: string) | Err(error: Error)

  // ------------------------------------------------------------- characters

  predicate IsSpace(c: char) {
    c == ' ' || c == '\t' || c == '\n' || c == '\r' || c as int == 11 || c as int == 12
  }

  predicate IsDigit(c: char) {
    '0' <= c <= '9'
  }

  function SkipSpace(s: string): (r: string)
    ensures |r| <= |s|
  {
    if s != [] && IsSpace(s[0]) then SkipSpace(s[1..]) else s
  }

  predicate StartsWith(s: string, prefix: string) {
    prefix <= s
  }

  // ---------------------------------------------------------------- strings

  /** The character an escape stands for, when it is one the parser knows. */
  function Unescaped(c: char): string {
    if c == '"' || c == '\\' || c == '/' then [c]
    else if c == 'b' then [8 as char]
    else if c == 'f' then [12 as char]
    else if c == 'n' then "\n"
    else if c == 'r' then "\r"
    else if c == 't' then "\t"
    else ""
  }

  /** The rest of a string after its opening quote, where `out` is what was read already. */
  function ParseChars(s: string, out: string): (q: Parsed<string>)
    ensures q.Ok? ==> |q.rest| < |s|
  {
    if s == [] then Err(UnterminatedString)
    else if s[0] == '"' then Ok(out, s[1..])
    else if s[0] != '\\' then ParseChars(s[1..], out + [s[0]])
    else if |s| < 2 then Err(UnterminatedEscape)
    else if Unescaped(s[1]) == "" then Err(UnsupportedEscape)
    else ParseChars(s[2..], out + Unescaped(s[1]))
  }

  function Escaped(c: char): string {
    if c == '"' then "\\\""
    else if c == '\\' then "\\\\"
    else if c == '\n' then "\\n"
    else if c == '\r' then "\\r"
    else if c == '\t' then "\\t"
    else [c]
  }

  function Escape(text: string): string {
    if text == [] then "" else Escape(text[..|text| - 1]) + Escaped(text[|text| - 1])
  }

  // ---------------------------------------------------------------- numbers

  /** The first position from `i` on that holds no digit. */
  function DigitsFrom(s: string, i: nat): (j: nat)
    requires i <= |s|
    ensures i <= j <= |s|
    decreases |s| - i
  {
    if i < |s| && IsDigit(s[i]) then DigitsFrom(s, i + 1) else i
  }

  function AfterSign(s: string): (i: nat)
    ensures i <= |s|
  {
    if s != [] && s[0] == '-' then 1 else 0
  }

  function AfterFraction(s: string, i: nat): (j: nat)
    requires i <= |s|
    ensures i <= j <= |s|
  {
    if i < |s| && s[i] == '.' then DigitsFrom(s, i + 1) else i
  }

  function ExponentDigits(s: string, i: nat): (j: nat)
    requires i < |s|
    ensures i < j <= |s|
  {
    if i + 1 < |s| && (s[i + 1] == '+' || s[i + 1] == '-') then i + 2 else i + 1
  }

  function AfterExponent(s: string, i: nat): (j: nat)
    requires i <= |s|
    ensures i <= j <= |s|
  {
    if i < |s| && (s[i] == 'e' || s[i] == 'E') then DigitsFrom(s, ExponentDigits(s, i)) else i
  }

  /** Where the number at the start of `s` ends. */
  function NumberEnd(s: string): (j: nat)
    ensures j <= |s|
  {
    AfterExponent(s, AfterFraction(s, DigitsFrom(s, AfterSign(s))))
  }

  /** The whole token is a number: a digit before or after the point, and one in any exponent. */
  predicate IsNumber(s: string) {
    var i := AfterSign(s);
    var j := DigitsFrom(s, i);
    var k := AfterFraction(s, j);
    && s != [] && (s[0] == '-' || IsDigit(s[0]))
    && (j > i || k > j + 1)
    && (k < |s| ==> (s[k] == 'e' || s[k] == 'E') && DigitsFrom(s, ExponentDigits(s, k)) > ExponentDigits(s, k))
    && NumberEnd(s) == |s|
  }

  function ParseNumber(finite: string -> bool, s: string): (q: Parsed<JsonValue>)
    requires s != [] && (s[0] == '-' || IsDigit(s[0]))
    ensures q.Ok? ==> |q.rest| < |s|
  {
    var token := s[..NumberEnd(s)];
    if IsNumber(token) && finite(token) then Ok(Number(token), s[|token|..]) else Err(InvalidNumber)
  }

  // ----------------------------------------------------------------- values

  function ParseValue(finite: string -> bool, before: string): (q: Parsed<JsonValue>)
    ensures q.Ok? ==> |q.rest| < |before|
    decreases |before|, 1
  {
    var s := SkipSpace(before);
    if s == [] then Err(UnexpectedEnd)
    else if s[0] == '{' then
      var t := SkipSpace(s[1..]);
      if StartsWith(t, "}") then Ok(Object([]), t[1..]) else ParseMembers(finite, t, [])
    else if s[0] == '[' then
      var t := SkipSpace(s[1..]);
      if StartsWith(t, "]") then Ok(Array([]), t[1..]) else ParseElements(finite, t, [])
    else if s[0] == '"' then
      match ParseChars(s[1..], "")
      case Err(e) => Err(e)
      case Ok(text, rest) => Ok(Text(text), rest)
    else if s[0] == '-' || IsDigit(s[0]) then ParseNumber(finite, s)
    else if StartsWith(s, "true") then Ok(Bool(true), s[4..])
    else if StartsWith(s, "false") then Ok(Bool(false), s[5..])
    else if StartsWith(s, "null") then Ok(Null, s[4..])
    else Err(UnexpectedToken)
  }

  /** The members of an object from one on, up to its closing brace. */
  function ParseMembers(finite: string -> bool, before: string, members: seq<(string, JsonValue)>)
    : (q: Parsed<JsonValue>)
    ensures q.Ok? ==> |q.rest| < |before|
    decreases |before|, 0
  {
    var s := SkipSpace(before);
    if !StartsWith(s, "\"") then Err(ExpectedKey)
    else
      match ParseChars(s[1..], "")
      case Err(e) => Err(e)
      case Ok(key, t) =>
        var u := SkipSpace(t);
        if !StartsWith(u, ":") then Err(ExpectedColon)
        else
          match ParseValue(finite, u[1..])
          case Err(e) => Err(e)
          case Ok(value, v) =>
            var w := SkipSpace(v);
            if StartsWith(w, "}") then Ok(Object(members + [(key, value)]), w[1..])
            else if StartsWith(w, ",") then ParseMembers(finite, w[1..], members + [(key, value)])
            else Err(ExpectedCommaOrBrace)
  }

  /** The elements of an array from one on, up to its closing bracket. */
  function ParseElements(finite: string -> bool, s: string, elements: seq<JsonValue>): (q: Parsed<JsonValue>)
    ensures q.Ok? ==> |q.rest| < |s|
    decreases |s|, 2
  {
    match ParseValue(finite, s)
    case Err(e) => Err(e)
    case Ok(value, t) =>
      var u := SkipSpace(t);
      if StartsWith(u, "]") then Ok(Array(elements + [value]), u[1..])
      else if StartsWith(u, ",") then ParseElements(finite, u[1..], elements + [value])
      else Err(ExpectedCommaOrBracket)
  }

  function ParseDocument(finite: string -> bool, input: string): Parsed<JsonValue> {
    match ParseValue(finite, input)
    case Err(e) => Err(e)
    case Ok(value, s) => if SkipSpace(s) == [] then Ok(value, "") else Err(TrailingContent)
  }

  /** The first member with a name. */
  function FindFrom(members: seq<(string, JsonValue)>, key: string, i: nat): (k: nat)
    requires i <= |members|
    ensures i <= k <= |members|
    ensures k < |members| ==> members[k].0 == key
    ensures forall j :: i <= j < k ==> members[j].0 != key
    decreases |members| - i
  {
    if i < |members| && members[i].0 != key then FindFrom(members, key, i + 1) else i
  }

  // ------------------------------------------------------------ compact form

  function Quote(text: string): string {
    "\"" + Escape(text) + "\""
  }

  function Print(v: JsonValue): string
    decreases v, 1
  {
    match v
    case Null => "null"
    case Bool(b) => if b then "true" else "false"
    case Number(token) => token
    case Text(text) => Quote(text)
    case Object(members) => "{" + PrintMembers(v, 0)
    case Array(elements) => "[" + PrintElements(v, 0)
  }

  /** Members from `i` on and the closing brace. */
  function PrintMembers(v: JsonValue, i: nat): string
    requires v.Object? && i <= |v.members|
    decreases v, 0, |v.members| - i
  {
    if i == |v.members| then "}"
    else (if i > 0 then "," else "") + Quote(v.members[i].0) + ":" + Print(v.members[i].1) + PrintMembers(v, i + 1)
  }

  /** Elements from `i` on and the closing bracket. */
  function PrintElements(v: JsonValue, i: nat): string
    requires v.Array? && i <= |v.elements|
    decreases v, 0, |v.elements| - i
  {
    if i == |v.elements| then "]"
    else (if i > 0 then "," else "") + Print(v.elements[i]) + PrintElements(v, i + 1)
  }

  /** Every number in the value is one that the parser takes. */
  predicate Printable(finite: string -> bool, v: JsonValue) {
    match v
    case Number(token) => IsNumber(token) && finite(token)
    case Object(members) => forall i :: 0 <= i < |members| ==> Printable(finite, members[i].1)
    case Array(elements) => forall i :: 0 <= i < |elements| ==> Printable(finite, elements[i])
    case _ => true
  }
}
