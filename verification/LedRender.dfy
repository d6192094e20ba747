/** The host renderer's command-line numbers and its trace metadata. */
module LedRender {
  import opened Common
  import opened Json
  import opened JsonRoundTrip
  import JsonParsers

  // ---------------------------------------------------------------- numbers

  function Digit(d: nat): char
    requires d < 10
  {
    '0' + d as char
  }

  function DigitValue(c: char): (d: nat)
    requires IsDigit(c)
    ensures d < 10
  {
    c as int - '0' as int
  }

  /** A number in decimal, as a stream prints it. */
  function Decimal(n: nat): (s: string)
    ensures s != []
  {
    if n < 10 then [Digit(n)] else Decimal(n / 10) + [Digit(n % 10)]
  }

  predicate AllDigits(s: string) {
    forall i :: 0 <= i < |s| ==> IsDigit(s[i])
  }

  function ValueOf(s: string): nat
    requires AllDigits(s)
  {
    if s == [] then 0 else 10 * ValueOf(s[..|s| - 1]) + DigitValue(s[|s| - 1])
  }

  lemma {:induction false} DecimalIsDigits(n: nat)
    ensures AllDigits(Decimal(n)) && ValueOf(Decimal(n)) == n
  {
    if n < 10 {
    } else {
      DecimalIsDigits(n / 10);
      assert Decimal(n)[..|Decimal(n)| - 1] == Decimal(n / 10);
    }
  }

  lemma {:induction false} ValueGrows(s: string, i: nat)
    requires AllDigits(s) && i <= |s|
    ensures ValueOf(s[..i]) <= ValueOf(s)
    decreases |s|
  {
    if i < |s| {
      assert s[..|s| - 1][..i] == s[..i];
      ValueGrows(s[..|s| - 1], i);
    } else {
      assert s[..i] == s;
    }
  }

  /** A text is a 32-bit number exactly when it is digits, at least one, of a value below 2^32. */
  method ParseUint32(text: string) returns (ok: bool, out: Word32)
    ensures ok <==> text != [] && AllDigits(text) && ValueOf(text) < WORD_32
    ensures ok ==> out == ValueOf(text)
  {
    if text == [] {
      return false, 0;
    }
    var value := 0;
    for i := 0 to |text|
      invariant AllDigits(text[..i]) && value == ValueOf(text[..i]) && value < WORD_32
    {
      var c := text[i];
      if c < '0' || c > '9' {
        return false, 0;
      }
      assert text[..i + 1][..i] == text[..i];
      value := value * 10 + DigitValue(c);
      if value >= WORD_32 {
        if AllDigits(text) {
          ValueGrows(text, i + 1);
        }
        return false, 0;
      }
    }
    assert text[..|text|] == text;
    return true, value;
  }

  /** What a printed 32-bit number parses back to. */
  method ParsePrinted(n: Word32) returns (out: Word32)
    ensures out == n
  {
    DecimalIsDigits(n);
    var ok, value := ParseUint32(Decimal(n));
    return value;
  }

  predicate IsUint32(text: string) {
    text != [] && AllDigits(text) && ValueOf(text) < WORD_32
  }

  /** Where the first colon is. */
  function ColonFrom(text: string, i: nat): (k: nat)
    requires i <= |text|
    ensures i <= k <= |text| && (k < |text| ==> text[k] == ':') && forall j :: i <= j < k ==> text[j] != ':'
    decreases |text| - i
  {
    if i < |text| && text[i] != ':' then ColonFrom(text, i + 1) else i
  }

  /** A frame range is two 32-bit numbers, in order, around the first colon. */
  method ParseFrames(text: string) returns (ok: bool, first: Word32, last: Word32)
    ensures ok <==> exists k :: 0 <= k < |text| && text[k] == ':' && IsUint32(text[..k]) && IsUint32(text[k + 1..])
                                && ValueOf(text[..k]) <= ValueOf(text[k + 1..])
    ensures ok ==> exists k :: 0 <= k < |text| && text[k] == ':' && IsUint32(text[..k]) && IsUint32(text[k + 1..])
                               && first == ValueOf(text[..k]) && last == ValueOf(text[k + 1..])
  {
    var k := 0;
    while k < |text| && text[k] != ':'
      invariant k <= |text| && ColonFrom(text, k) == ColonFrom(text, 0)
    {
      k := k + 1;
    }
    if k == |text| {
      return false, 0, 0;
    }
    var okFirst, okLast;
    okFirst, first := ParseUint32(text[..k]);
    okLast, last := ParseUint32(text[k + 1..]);
    forall j | k < j < |text| ensures !AllDigits(text[..j]) {
      assert text[..j][k] == ':';
    }
    ok := okFirst && okLast && first <= last;
  }

  lemma {:induction false} DigitsRun(s: string, i: nat)
    requires AllDigits(s) && i <= |s|
    ensures DigitsFrom(s, i) == |s|
    decreases |s| - i
  {
    if i == |s| {
    } else {
      DigitsRun(s, i + 1);
    }
  }

  /** A printed number is a number token. */
  lemma DecimalsAreNumbers()
    ensures forall n: nat :: IsNumber(Decimal(n))
  {
    forall n: nat ensures IsNumber(Decimal(n)) {
      DecimalIsDigits(n);
      DigitsRun(Decimal(n), 0);
      assert IsDigit(Decimal(n)[0]);
    }
  }

  // --------------------------------------------------------------- metadata

  datatype Request = Request(
    pipelineMode: bool,
    fps: Word32,
    firstFrame: Word32,
    lastFrame: Word32,
    hueOffset: Byte,
    rotationOffset: Byte,
    sourceJson: string)

  datatype Layer = Background | Fft | FftAlt | Effect | TransientEffect | Wheel | Debug | UI

  datatype Animation = Animation(name: string, startMs: Word32, durationMs: Word32, layer: Layer,
                                 requiresFullFrame: bool)

  datatype Geometry = Geometry(centerGapMm: Word32, stripLengthMm: Word32, innerRadiusMm: Word32, outerRadiusMm: Word32)

  const TRACE_VERSION: Word32 := 1

  function LayerName(layer: Layer): string {
    match layer
    case Background => "Background"
    case Fft => "Fft"
    case FftAlt => "FftAlt"
    case Effect => "Effect"
    case TransientEffect => "TransientEffect"
    case Wheel => "Wheel"
    case Debug => "Debug"
    case UI => "UI"
  }

  function Num(n: Word32): JsonValue {
    Number(Decimal(n))
  }

  function AnimationValue(a: Animation): JsonValue {
    Object([("name", Text(a.name)), ("start_ms", Num(a.startMs)), ("duration_ms", Num(a.durationMs)),
            ("layer", Text(LayerName(a.layer))), ("requires_full_frame", Bool(a.requiresFullFrame))])
  }

  function AnimationValues(animations: seq<Animation>): (r: seq<JsonValue>)
    ensures |r| == |animations|
  {
    seq(|animations|, i requires 0 <= i < |animations| => AnimationValue(animations[i]))
  }

  function GeometryValue(g: Geometry): JsonValue {
    Object([("center_gap_diameter_mm", Num(g.centerGapMm)), ("radial_strip_length_mm", Num(g.stripLengthMm)),
            ("inner_radius_mm", Num(g.innerRadiusMm)), ("outer_radius_mm", Num(g.outerRadiusMm))])
  }

  function IntroMembers(r: Request, configPath: string): seq<(string, JsonValue)> {
    [("format", Text("totem-led-trace")), ("format_version", Num(TRACE_VERSION)),
     ("renderer", Text("tools/led-render")),
     ("config_path", Text(configPath)), ("mode", Text(if r.pipelineMode then "pipeline" else "animation"))]
  }

  function NumberMembers(r: Request): seq<(string, JsonValue)> {
    [("fps", Num(r.fps)), ("first_frame", Num(r.firstFrame)), ("last_frame", Num(r.lastFrame)),
     ("hue_offset", Num(r.hueOffset)), ("rotation_offset", Num(r.rotationOffset))]
  }

  function BodyMembers(r: Request, g: Geometry, animations: seq<Animation>): seq<(string, JsonValue)> {
    [("color_backend", Text("GenericRenderer")), ("pixel_order", Text("logical_spoke_radial")),
     ("geometry", GeometryValue(g)), ("animations", Array(AnimationValues(animations))),
     ("source_json", Text(r.sourceJson))]
  }

  /** The metadata as a value. */
  function Metadata(r: Request, configPath: string, g: Geometry, animations: seq<Animation>): JsonValue {
    Object(IntroMembers(r, configPath) + NumberMembers(r) + BodyMembers(r, g, animations))
  }

  // ------------------------------------------------- writing the metadata

  predicate PlainChar(c: char) {
    c != '"' && c != '\\' && c != '\n' && c != '\r' && c != '\t'
  }

  predicate Plain(s: string) {
    forall i :: 0 <= i < |s| ==> PlainChar(s[i])
  }

  lemma {:induction false} PlainNeedsNoEscape(s: string)
    requires Plain(s)
    ensures Escape(s) == s
  {
    if s == [] {
    } else {
      PlainNeedsNoEscape(s[..|s| - 1]);
      assert s == s[..|s| - 1] + [s[|s| - 1]];
    }
  }

  function Key(name: string): string {
    "\"" + name + "\":"
  }

  function Raw(text: string): string {
    "\"" + text + "\""
  }

  /** The first `n` members of an object, each with its comma. */
  function Leading(members: seq<(string, JsonValue)>, n: nat): string
    requires n <= |members|
  {
    if n == 0 then ""
    else Leading(members, n - 1) + Quote(members[n - 1].0) + ":" + Print(members[n - 1].1) + ","
  }

  /** The first `n` members of an object, with commas between them. */
  function Joined(members: seq<(string, JsonValue)>, n: nat): string
    requires n <= |members|
  {
    if n == 0 then ""
    else Joined(members, n - 1) + (if n > 1 then "," else "") + Quote(members[n - 1].0) + ":" + Print(members[n - 1].1)
  }

  lemma {:induction false} JoinedIsLeading(members: seq<(string, JsonValue)>, n: nat)
    requires 0 < n <= |members|
    ensures Joined(members, n) + "," == Leading(members, n)
  {
    if n == 1 {
    } else {
      JoinedIsLeading(members, n - 1);
    }
  }

  lemma Regroup(a: string, b: string, c: string, d: string, e: string)
    ensures a + (b + c + ":" + d + e) == (a + b + c + ":" + d) + e
  {
  }

  lemma {:induction false} PrintMembersSplit(v: JsonValue, n: nat)
    requires v.Object? && n <= |v.members|
    ensures PrintMembers(v, 0) == Joined(v.members, n) + PrintMembers(v, n)
  {
    hide Print, Quote;
    if n > 0 {
      PrintMembersSplit(v, n - 1);
      Regroup(Joined(v.members, n - 1), if n > 1 then "," else "", Quote(v.members[n - 1].0),
              Print(v.members[n - 1].1), PrintMembers(v, n));
    } else {
      assert "" + PrintMembers(v, 0) == PrintMembers(v, 0);
    }
  }

  /** An object is its members with a comma between them, between braces. */
  lemma PrintObject(v: JsonValue)
    requires v.Object?
    ensures Print(v) == "{" + Joined(v.members, |v.members|) + "}"
  {
    PrintMembersSplit(v, |v.members|);
  }

  lemma KeyIsQuote(name: string)
    requires Plain(name)
    ensures Key(name) == Quote(name) + ":"
  {
    PlainNeedsNoEscape(name);
  }

  lemma AppendMember(start: string, before: string, quote: string, text: string)
    ensures start + before + (quote + ":" + text) + "," == start + (before + quote + ":" + text + ",")
  {
  }

  /** One more member with its comma. */
  lemma NextMember(start: string, members: seq<(string, JsonValue)>, n: nat, out: string, text: string)
    requires n < |members| && Plain(members[n].0)
    requires out == start + Leading(members, n) && text == Key(members[n].0) + Print(members[n].1)
    ensures out + text + "," == start + Leading(members, n + 1)
  {
    KeyIsQuote(members[n].0);
    hide Quote, Print, Key, Plain;
    AppendMember(start, Leading(members, n), Quote(members[n].0), Print(members[n].1));
  }

  lemma AppendLast(before: string, sep: string, quote: string, text: string)
    ensures "{" + (before + sep) + (quote + ":" + text) + "}" == "{" + (before + sep + quote + ":" + text) + "}"
  {
  }

  /** The last member and the closing brace. */
  lemma LastMember(v: JsonValue, out: string, text: string)
    requires v.Object? && v.members != [] && Plain(v.members[|v.members| - 1].0)
    requires out == "{" + Leading(v.members, |v.members| - 1)
    requires text == Key(v.members[|v.members| - 1].0) + Print(v.members[|v.members| - 1].1)
    ensures out + text + "}" == Print(v)
  {
    var n := |v.members| - 1;
    KeyIsQuote(v.members[n].0);
    PrintObject(v);
    hide Quote, Print, Key, Plain, PrintMembers;
    if n > 0 {
      JoinedIsLeading(v.members, n);
    }
    AppendLast(Joined(v.members, n), if n > 0 then "," else "", Quote(v.members[n].0), Print(v.members[n].1));
  }

  lemma LeadingNone(start: string, members: seq<(string, JsonValue)>)
    ensures start == start + Leading(members, 0)
  {
  }

  lemma AppendToBoth(a: string, b: string, quote: string, text: string)
    ensures a + b + quote + ":" + text + "," == a + (b + quote + ":" + text + ",")
  {
  }

  lemma {:induction false} LeadingConcat(a: seq<(string, JsonValue)>, b: seq<(string, JsonValue)>, n: nat)
    requires n <= |b|
    ensures Leading(a + b, |a| + n) == Leading(a, |a|) + Leading(b, n)
  {
    hide Print, Quote;
    if n == 0 {
      LeadingOfPrefix(a, b, |a|);
    } else {
      LeadingConcat(a, b, n - 1);
      assert (a + b)[|a| + n - 1] == b[n - 1];
      AppendToBoth(Leading(a, |a|), Leading(b, n - 1), Quote(b[n - 1].0), Print(b[n - 1].1));
    }
  }

  lemma {:induction false} LeadingOfPrefix(a: seq<(string, JsonValue)>, b: seq<(string, JsonValue)>, n: nat)
    requires n <= |a|
    ensures Leading(a + b, n) == Leading(a, n)
  {
    if n == 0 {
    } else {
      LeadingOfPrefix(a, b, n - 1);
    }
  }

  lemma RawIsQuote(text: string)
    requires Plain(text)
    ensures Raw(text) == Print(Text(text))
  {
    PlainNeedsNoEscape(text);
  }

  /** Writes a member that another follows; `members` are those being written after `start`. */
  method WriteMember(out: string, key: string, text: string, ghost start: string,
                     ghost members: seq<(string, JsonValue)>, ghost n: nat)
    returns (longer: string)
    requires n < |members| && Plain(key) && members[n].0 == key && text == Print(members[n].1)
    requires out == start + Leading(members, n)
    ensures longer == start + Leading(members, n + 1)
  {
    NextMember(start, members, n, out, Key(key) + text);
    longer := out + (Key(key) + text) + ",";
  }

  /** Writes the last member and closes the object. */
  method WriteLast(out: string, key: string, text: string, ghost v: JsonValue) returns (longer: string)
    requires v.Object? && v.members != [] && Plain(key)
    requires var last := v.members[|v.members| - 1]; last.0 == key && text == Print(last.1)
    requires out == "{" + Leading(v.members, |v.members| - 1)
    ensures longer == Print(v)
  {
    LastMember(v, out, Key(key) + text);
    longer := out + (Key(key) + text) + "}";
  }

  method GeometryJson(g: Geometry) returns (out: string)
    ensures out == Print(GeometryValue(g))
  {
    hide Leading, Decimal;
    ghost var v := GeometryValue(g);
    out := "{";
    LeadingNone("{", v.members);
    out := WriteMember(out, "center_gap_diameter_mm", Decimal(g.centerGapMm), "{", v.members, 0);
    out := WriteMember(out, "radial_strip_length_mm", Decimal(g.stripLengthMm), "{", v.members, 1);
    out := WriteMember(out, "inner_radius_mm", Decimal(g.innerRadiusMm), "{", v.members, 2);
    out := WriteLast(out, "outer_radius_mm", Decimal(g.outerRadiusMm), v);
  }

  lemma LayerNameIsPlain(layer: Layer)
    ensures Plain(LayerName(layer))
  {
  }

  method AnimationJson(a: Animation) returns (out: string)
    ensures out == Print(AnimationValue(a))
  {
    hide Leading, Decimal, LayerName, Escape;
    ghost var v := AnimationValue(a);
    out := "{";
    LeadingNone("{", v.members);
    var name := JsonParsers.EscapeJson(a.name);
    out := WriteMember(out, "name", Raw(name), "{", v.members, 0);
    out := WriteMember(out, "start_ms", Decimal(a.startMs), "{", v.members, 1);
    out := WriteMember(out, "duration_ms", Decimal(a.durationMs), "{", v.members, 2);
    LayerNameIsPlain(a.layer);
    RawIsQuote(LayerName(a.layer));
    out := WriteMember(out, "layer", Raw(LayerName(a.layer)), "{", v.members, 3);
    out := WriteLast(out, "requires_full_frame", if a.requiresFullFrame then "true" else "false", v);
  }

  /** The first `n` elements of an array, with commas between them. */
  function JoinedElements(elements: seq<JsonValue>, n: nat): string
    requires n <= |elements|
  {
    if n == 0 then "" else JoinedElements(elements, n - 1) + (if n > 1 then "," else "") + Print(elements[n - 1])
  }

  lemma {:induction false} PrintElementsSplit(v: JsonValue, n: nat)
    requires v.Array? && n <= |v.elements|
    ensures PrintElements(v, 0) == JoinedElements(v.elements, n) + PrintElements(v, n)
  {
    hide Print;
    if n > 0 {
      PrintElementsSplit(v, n - 1);
      assert JoinedElements(v.elements, n - 1) + PrintElements(v, n - 1)
             == JoinedElements(v.elements, n) + PrintElements(v, n);
    } else {
      assert "" + PrintElements(v, 0) == PrintElements(v, 0);
    }
  }

  method AnimationsJson(animations: seq<Animation>) returns (out: string)
    ensures out == Print(Array(AnimationValues(animations)))
  {
    hide AnimationValue, Print;
    ghost var values := AnimationValues(animations);
    out := "[";
    for i := 0 to |animations|
      invariant out == "[" + JoinedElements(values, i)
    {
      var text := AnimationJson(animations[i]);
      if i != 0 {
        out := out + ",";
      }
      out := out + text;
      assert out == "[" + JoinedElements(values, i + 1);
    }
    out := out + "]";
    PrintArray(Array(values));
  }

  lemma PrintArray(v: JsonValue)
    requires v.Array?
    ensures Print(v) == "[" + JoinedElements(v.elements, |v.elements|) + "]"
  {
    PrintElementsSplit(v, |v.elements|);
  }

  lemma IntroNamesArePlain()
    ensures Plain("format") && Plain("totem-led-trace") && Plain("format_version")
    ensures Plain("renderer") && Plain("tools/led-render") && Plain("config_path")
    ensures Plain("mode") && Plain("pipeline") && Plain("animation")
  {
  }

  method WriteIntro(r: Request, configPath: string) returns (out: string)
    ensures out == "{" + Leading(IntroMembers(r, configPath), 5)
  {
    hide Leading, Decimal, Escape, Plain;
    IntroNamesArePlain();
    ghost var members := IntroMembers(r, configPath);
    out := "{";
    LeadingNone("{", members);
    RawIsQuote("totem-led-trace");
    out := WriteMember(out, "format", Raw("totem-led-trace"), "{", members, 0);
    out := WriteMember(out, "format_version", Decimal(TRACE_VERSION), "{", members, 1);
    RawIsQuote("tools/led-render");
    out := WriteMember(out, "renderer", Raw("tools/led-render"), "{", members, 2);
    var path := JsonParsers.EscapeJson(configPath);
    out := WriteMember(out, "config_path", Raw(path), "{", members, 3);
    var mode := if r.pipelineMode then "pipeline" else "animation";
    RawIsQuote(mode);
    out := WriteMember(out, "mode", Raw(mode), "{", members, 4);
  }

  method WriteNumbers(before: string, r: Request) returns (out: string)
    ensures out == before + Leading(NumberMembers(r), 5)
  {
    hide Leading, Decimal;
    ghost var members := NumberMembers(r);
    LeadingNone(before, members);
    out := WriteMember(before, "fps", Decimal(r.fps), before, members, 0);
    out := WriteMember(out, "first_frame", Decimal(r.firstFrame), before, members, 1);
    out := WriteMember(out, "last_frame", Decimal(r.lastFrame), before, members, 2);
    out := WriteMember(out, "hue_offset", Decimal(r.hueOffset), before, members, 3);
    out := WriteMember(out, "rotation_offset", Decimal(r.rotationOffset), before, members, 4);
  }

  lemma BodyNamesArePlain()
    ensures Plain("color_backend") && Plain("GenericRenderer") && Plain("pixel_order")
    ensures Plain("logical_spoke_radial") && Plain("geometry") && Plain("animations")
  {
  }

  method WriteBody(before: string, r: Request, g: Geometry, animations: seq<Animation>) returns (out: string)
    ensures out == before + Leading(BodyMembers(r, g, animations), 4)
  {
    hide Leading, Decimal, GeometryValue, AnimationValues, Plain;
    BodyNamesArePlain();
    ghost var members := BodyMembers(r, g, animations);
    LeadingNone(before, members);
    RawIsQuote("GenericRenderer");
    out := WriteMember(before, "color_backend", Raw("GenericRenderer"), before, members, 0);
    RawIsQuote("logical_spoke_radial");
    out := WriteMember(out, "pixel_order", Raw("logical_spoke_radial"), before, members, 1);
    var geometry := GeometryJson(g);
    out := WriteMember(out, "geometry", geometry, before, members, 2);
    var list := AnimationsJson(animations);
    out := WriteMember(out, "animations", list, before, members, 3);
  }

  method MetadataJson(r: Request, configPath: string, g: Geometry, animations: seq<Animation>) returns (out: string)
    ensures out == Print(Metadata(r, configPath, g, animations))
  {
    hide Leading, Escape, Print;
    ghost var v := Metadata(r, configPath, g, animations);
    ghost var first, second, third := IntroMembers(r, configPath), NumberMembers(r), BodyMembers(r, g, animations);
    out := WriteIntro(r, configPath);
    LeadingConcat(first, second, 5);
    out := WriteNumbers(out, r);
    assert "{" + Leading(first, 5) + Leading(second, 5) == "{" + Leading(first + second, 10);
    LeadingConcat(first + second, third, 4);
    out := WriteBody(out, r, g, animations);
    assert "{" + Leading(first + second, 10) + Leading(third, 4) == "{" + Leading(v.members, 14);
    var source := JsonParsers.EscapeJson(r.sourceJson);
    PrintText(r.sourceJson);
    out := WriteLast(out, "source_json", Raw(source), v);
  }

  lemma PrintText(text: string)
    ensures Print(Text(text)) == Raw(Escape(text))
  {
  }

  // ------------------------------------------------------------ main result

  /** The decimal form of any 32-bit number is finite as a double. */
  ghost predicate TakesUint32(finite: string -> bool) {
    forall n: Word32 :: finite(Decimal(n))
  }

  lemma NumsArePrintable(finite: string -> bool)
    requires TakesUint32(finite)
    ensures forall n: Word32 :: Printable(finite, Num(n))
  {
    hide IsNumber, Decimal;
    DecimalsAreNumbers();
  }

  lemma GeometryIsPrintable(finite: string -> bool, g: Geometry)
    requires TakesUint32(finite)
    ensures Printable(finite, GeometryValue(g))
  {
    NumsArePrintable(finite);
    hide Num, TakesUint32;
  }

  lemma AnimationIsPrintable(finite: string -> bool, a: Animation)
    requires TakesUint32(finite)
    ensures Printable(finite, AnimationValue(a))
  {
    NumsArePrintable(finite);
    hide Num, TakesUint32;
  }

  lemma AnimationsArePrintable(finite: string -> bool, animations: seq<Animation>)
    requires TakesUint32(finite)
    ensures Printable(finite, Array(AnimationValues(animations)))
  {
    hide AnimationValue;
    forall i | 0 <= i < |animations| ensures Printable(finite, AnimationValues(animations)[i]) {
      AnimationIsPrintable(finite, animations[i]);
    }
  }

  lemma MetadataIsPrintable(finite: string -> bool, r: Request, configPath: string, g: Geometry,
                            animations: seq<Animation>)
    requires TakesUint32(finite)
    ensures Printable(finite, Metadata(r, configPath, g, animations))
  {
    hide Num, TakesUint32, GeometryValue, AnimationValues;
    NumsArePrintable(finite);
    GeometryIsPrintable(finite, g);
    AnimationsArePrintable(finite, animations);
  }

  /**
   Parsing the metadata of any request, path and animations succeeds and gives
   back every member: the source text and path unescaped, every number as the
   token of its decimal form, and every animation in order.
   */
  lemma MetadataRoundTrip(finite: string -> bool, r: Request, configPath: string, g: Geometry,
                          animations: seq<Animation>)
    requires TakesUint32(finite)
    ensures ParseDocument(finite, Print(Metadata(r, configPath, g, animations)))
         == Ok(Metadata(r, configPath, g, animations), "")
  {
    hide *;
    MetadataIsPrintable(finite, r, configPath, g, animations);
    DocumentRoundTrip(finite, Metadata(r, configPath, g, animations));
  }

  /** The value under a name, as a reader of the metadata finds it. */
  function Under(v: JsonValue, name: string): Option<JsonValue> {
    if !v.Object? || FindFrom(v.members, name, 0) == |v.members| then None
    else Some(v.members[FindFrom(v.members, name, 0)].1)
  }

  /** No two of these names have the same length and the same first letter. */
  predicate TellApart(v: JsonValue)
    requires v.Object?
  {
    && (forall i :: 0 <= i < |v.members| ==> v.members[i].0 != "")
    && forall i, j :: 0 <= i < j < |v.members| ==>
         |v.members[i].0| != |v.members[j].0| || v.members[i].0[0] != v.members[j].0[0]
  }

  lemma FoundByName(v: JsonValue, k: nat)
    requires v.Object? && k < |v.members| && TellApart(v)
    ensures Under(v, v.members[k].0) == Some(v.members[k].1)
  {
    var name := v.members[k].0;
    assert forall j :: 0 <= j < k ==> v.members[j].0 != name;
  }

  lemma NamesTellApart(r: Request, configPath: string, g: Geometry, animations: seq<Animation>)
    ensures TellApart(Metadata(r, configPath, g, animations))
  {
    hide Decimal, AnimationValues, GeometryValue;
  }

  /** Each part of a request is found under its own name. */
  lemma RequestIsFoundByName(r: Request, configPath: string, g: Geometry, animations: seq<Animation>)
    ensures var m := Metadata(r, configPath, g, animations);
      && Under(m, "format") == Some(Text("totem-led-trace")) && Under(m, "format_version") == Some(Number(Decimal(1)))
      && Under(m, "config_path") == Some(Text(configPath))
      && Under(m, "mode") == Some(Text(if r.pipelineMode then "pipeline" else "animation"))
      && Under(m, "fps") == Some(Number(Decimal(r.fps)))
      && Under(m, "first_frame") == Some(Number(Decimal(r.firstFrame)))
      && Under(m, "last_frame") == Some(Number(Decimal(r.lastFrame)))
      && Under(m, "hue_offset") == Some(Number(Decimal(r.hueOffset)))
      && Under(m, "rotation_offset") == Some(Number(Decimal(r.rotationOffset)))
      && Under(m, "source_json") == Some(Text(r.sourceJson))
  {
    hide Decimal, Under, AnimationValues, GeometryValue;
    var m := Metadata(r, configPath, g, animations);
    NamesTellApart(r, configPath, g, animations);
    hide TellApart;
    forall k | 0 <= k < 15 ensures Under(m, m.members[k].0) == Some(m.members[k].1) {
      FoundByName(m, k);
    }
    assert m.members[0].0 == "format" && m.members[1].0 == "format_version" && m.members[3].0 == "config_path";
    assert m.members[4].0 == "mode" && m.members[5].0 == "fps" && m.members[6].0 == "first_frame";
    assert m.members[7].0 == "last_frame" && m.members[8].0 == "hue_offset" && m.members[9].0 == "rotation_offset";
    assert m.members[14].0 == "source_json";
  }
  /** So is each part of an animation and of the geometry. */
  lemma PartsAreFoundByName(a: Animation, g: Geometry)
    ensures var v := AnimationValue(a);
      && Under(v, "name") == Some(Text(a.name)) && Under(v, "start_ms") == Some(Number(Decimal(a.startMs)))
      && Under(v, "duration_ms") == Some(Number(Decimal(a.durationMs)))
      && Under(v, "requires_full_frame") == Some(Bool(a.requiresFullFrame))
      && Under(v, "layer") == Some(Text(match a.layer
                                        case Background => "Background"
                                        case Fft => "Fft"
                                        case FftAlt => "FftAlt"
                                        case Effect => "Effect"
                                        case TransientEffect => "TransientEffect"
                                        case Wheel => "Wheel"
                                        case Debug => "Debug"
                                        case UI => "UI"))
    ensures var v := GeometryValue(g);
      && Under(v, "center_gap_diameter_mm") == Some(Number(Decimal(g.centerGapMm)))
      && Under(v, "radial_strip_length_mm") == Some(Number(Decimal(g.stripLengthMm)))
      && Under(v, "inner_radius_mm") == Some(Number(Decimal(g.innerRadiusMm)))
      && Under(v, "outer_radius_mm") == Some(Number(Decimal(g.outerRadiusMm)))
  {
    hide Decimal, Under;
    var v, w := AnimationValue(a), GeometryValue(g);
    assert TellApart(v) && TellApart(w);
    forall k | 0 <= k < 5 ensures Under(v, v.members[k].0) == Some(v.members[k].1) {
      FoundByName(v, k);
    }
    forall k | 0 <= k < 4 ensures Under(w, w.members[k].0) == Some(w.members[k].1) {
      FoundByName(w, k);
    }
    assert v.members[0].0 == "name" && v.members[1].0 == "start_ms" && v.members[2].0 == "duration_ms";
    assert v.members[3].0 == "layer" && v.members[4].0 == "requires_full_frame";
    assert w.members[0].0 == "center_gap_diameter_mm" && w.members[1].0 == "radial_strip_length_mm";
    assert w.members[2].0 == "inner_radius_mm" && w.members[3].0 == "outer_radius_mm";
  }

  lemma NumIsInjective(a: Word32, b: Word32)
    requires Num(a) == Num(b)
    ensures a == b
  {
    DecimalIsDigits(a);
    DecimalIsDigits(b);
  }

  lemma LayerNameIsInjective(a: Layer, b: Layer)
    requires LayerName(a) == LayerName(b)
    ensures a == b
  {
    assert forall l: Layer :: |LayerName(l)| >= 2;
    assert LayerName(a)[0] == LayerName(b)[0] && LayerName(a)[1] == LayerName(b)[1] && |LayerName(a)| == |LayerName(b)|;
  }

  lemma AnimationValueIsInjective(a: Animation, b: Animation)
    requires AnimationValue(a) == AnimationValue(b)
    ensures a == b
  {
    hide Num, LayerName;
    var m, n := AnimationValue(a).members, AnimationValue(b).members;
    assert m[0] == n[0] && m[1] == n[1] && m[2] == n[2] && m[3] == n[3] && m[4] == n[4];
    NumIsInjective(a.startMs, b.startMs);
    NumIsInjective(a.durationMs, b.durationMs);
    LayerNameIsInjective(a.layer, b.layer);
  }

  lemma RequestIsInjective(r: Request, s: Request, p: string, q: string)
    requires IntroMembers(r, p) == IntroMembers(s, q) && NumberMembers(r) == NumberMembers(s)
             && r.sourceJson == s.sourceJson
    ensures r == s && p == q
  {
    hide Num;
    assert IntroMembers(r, p)[3] == IntroMembers(s, q)[3] && IntroMembers(r, p)[4] == IntroMembers(s, q)[4];
    assert |"pipeline"| != |"animation"|;
    var m, n := NumberMembers(r), NumberMembers(s);
    assert m[0] == n[0] && m[1] == n[1] && m[2] == n[2] && m[3] == n[3] && m[4] == n[4];
    NumIsInjective(r.fps, s.fps);
    NumIsInjective(r.firstFrame, s.firstFrame);
    NumIsInjective(r.lastFrame, s.lastFrame);
    NumIsInjective(r.hueOffset, s.hueOffset);
    NumIsInjective(r.rotationOffset, s.rotationOffset);
  }

  /** So the metadata text determines the request's fields in it, the path and every animation. */
  lemma MetadataDetermines(r: Request, s: Request, p: string, q: string, g: Geometry,
                           a: seq<Animation>, b: seq<Animation>)
    requires Print(Metadata(r, p, g, a)) == Print(Metadata(s, q, g, b))
    ensures r == s && p == q && a == b
  {
    hide Print, AnimationValues, GeometryValue, AnimationValue, IntroMembers, NumberMembers, TakesUint32;
    SameMetadata(r, s, p, q, g, a, b);
    var x, y := BodyMembers(r, g, a), BodyMembers(s, g, b);
    assert x[3] == y[3] && x[4] == y[4];
    RequestIsInjective(r, s, p, q);
    AnimationsAreInjective(a, b);
  }

  lemma SameMetadata(r: Request, s: Request, p: string, q: string, g: Geometry, a: seq<Animation>, b: seq<Animation>)
    requires Print(Metadata(r, p, g, a)) == Print(Metadata(s, q, g, b))
    ensures IntroMembers(r, p) == IntroMembers(s, q) && NumberMembers(r) == NumberMembers(s)
    ensures BodyMembers(r, g, a) == BodyMembers(s, g, b)
  {
    var finite := (token: string) => true;
    assert TakesUint32(finite);
    hide Print, AnimationValues, GeometryValue, Num;
    MetadataRoundTrip(finite, r, p, g, a);
    MetadataRoundTrip(finite, s, q, g, b);
    var m, n := Metadata(r, p, g, a).members, Metadata(s, q, g, b).members;
    assert m == n;
    assert IntroMembers(r, p) == m[..5] && IntroMembers(s, q) == n[..5];
    assert NumberMembers(r) == m[5..10] && NumberMembers(s) == n[5..10];
    assert BodyMembers(r, g, a) == m[10..] && BodyMembers(s, g, b) == n[10..];
  }

  lemma AnimationsAreInjective(a: seq<Animation>, b: seq<Animation>)
    requires AnimationValues(a) == AnimationValues(b)
    ensures a == b
  {
    hide AnimationValue;
    assert |a| == |b|;
    forall i | 0 <= i < |a| ensures a[i] == b[i] {
      assert AnimationValues(a)[i] == AnimationValues(b)[i];
      AnimationValueIsInjective(a[i], b[i]);
    }
  }
}
