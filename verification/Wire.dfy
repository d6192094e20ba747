/**
 The wire encoder for generated data models: fixed-width little-endian fields, in
 declaration order, with defaults for what the caller leaves out. Model names are
 resolved, so a descriptor is a tree.
 */
module Wire {
  import opened Common

  /** Python values that callers pass; a dictionary keeps its insertion order. */
  datatype Value =
    | NoValue
    | Int(number: int)
    | Bool(truth: bool)
    | Str(text: string)
    | Bytes(bytes: seq<Byte>)
    | List(items: seq<Value>)
    | Dict(entries: seq<(string, Value)>)

  datatype Kind =
    | BoolKind
    | ScalarKind(width: nat, signed: bool)
    | EnumKind(enum: string, width: nat, signed: bool)
    | ArrayKind(len: nat, element: Kind)
    | ModelKind(fields: seq<Field>)
    | OtherKind

  datatype Field = Field(name: string, kind: Kind, default: Option<Value>)

  /** What the encoder raises: for a bad value, an integer that does not fit, no items, and no such kind. */
  datatype Error = ValueError | OverflowError | TypeError | UnsupportedFieldError

  datatype Result<T> = Ok(value: T) | Err(error: Error)

  /** How text is read, and the enumerations: all that the encoder takes from outside. */
  datatype Env = Env(
    boolOf: string -> Option<bool>,
    intOf: string -> Option<int>,
    enumOf: (string, string) -> Option<int>,
    firstOf: string -> Option<string>,
    hexOf: string -> Option<seq<Byte>>)

  // -------------------------------------------------------------- coercions

  function CoerceBool(env: Env, v: Value): Result<bool> {
    match v
    case Bool(b) => Ok(b)
    case Int(n) => Ok(n != 0)
    case Str(s) => (match env.boolOf(s) case Some(b) => Ok(b) case None => Err(ValueError))
    case _ => Err(ValueError)
  }

  function CoerceInt(env: Env, v: Value): Result<int> {
    match v
    case Bool(b) => Ok(if b then 1 else 0)
    case Int(n) => Ok(n)
    case Str(s) => (match env.intOf(s) case Some(n) => Ok(n) case None => Err(ValueError))
    case _ => Err(ValueError)
  }

  function EnumValue(env: Env, enum: string, v: Value): Result<int> {
    if v.Str? then (match env.enumOf(enum, v.text) case Some(n) => Ok(n) case None => Err(ValueError))
    else CoerceInt(env, v)
  }

  /** The elements of an array value; text and byte strings stand for bytes where numbers are wanted. */
  function ItemsOf(env: Env, element: Kind, v: Value): Result<seq<Value>> {
    match v
    case Str(s) =>
      if element.ScalarKind? then
        (match env.hexOf(s)
         case Some(bytes) => Ok(seq(|bytes|, i requires 0 <= i < |bytes| => Int(bytes[i])))
         case None => Err(ValueError))
      else Ok(seq(|s|, i requires 0 <= i < |s| => Str([s[i]])))
    case Bytes(bytes) => Ok(seq(|bytes|, i requires 0 <= i < |bytes| => Int(bytes[i])))
    case List(items) => Ok(items)
    case Dict(entries) => Ok(seq(|entries|, i requires 0 <= i < |entries| => Str(entries[i].0)))
    case NoValue => Ok([])
    case Int(n) => if n == 0 then Ok([]) else Err(TypeError)
    case Bool(b) => if !b then Ok([]) else Err(TypeError)
  }

  // --------------------------------------------------------------- defaults

  function DefaultValue(env: Env, f: Field): Value
    decreases f
  {
    if f.default.Some? && f.default.value != NoValue then f.default.value else DefaultOf(env, f.kind)
  }

  function DefaultOf(env: Env, k: Kind): Value
    decreases k
  {
    match k
    case BoolKind => Bool(false)
    case ScalarKind(_, _) => Int(0)
    case EnumKind(enum, _, _) => (match env.firstOf(enum) case Some(name) => Str(name) case None => NoValue)
    case ArrayKind(len, element) =>
      var item := if element.ArrayKind? then NoValue else DefaultOf(env, element);
      List(seq(len, _ => item))
    case ModelKind(fields) =>
      Dict(seq(|fields|, i requires 0 <= i < |fields| => (fields[i].name, DefaultValue(env, fields[i]))))
    case OtherKind => NoValue
  }

  /** The last value given for a name. */
  function Lookup(entries: seq<(string, Value)>, name: string): Option<Value> {
    if entries == [] then None
    else if entries[|entries| - 1].0 == name then Some(entries[|entries| - 1].1)
    else Lookup(entries[..|entries| - 1], name)
  }

  /** A field's value, once the caller's entries are put over the model's defaults. */
  function Merged(env: Env, k: Kind, f: Field, given: seq<(string, Value)>): Value
    requires k.ModelKind?
  {
    match Lookup(DefaultOf(env, k).entries + given, f.name)
    case Some(v) => v
    case None => NoValue
  }

  // ----------------------------------------------------------------- bytes

  function Low(width: nat, signed: bool): int {
    if signed && width > 0 then 0 - Pow2(8 * width - 1) else 0
  }

  function High(width: nat, signed: bool): int {
    if signed && width > 0 then Pow2(8 * width - 1) - 1 else Pow2(8 * width) - 1
  }

  /** Two's complement, least significant byte first. */
  function LittleEndian(n: int, width: nat): (r: seq<Byte>)
    ensures |r| == width
    decreases width
  {
    if width == 0 then [] else [n % 0x100] + LittleEndian(n / 0x100, width - 1)
  }

  function EncodeInt(number: Result<int>, width: nat, signed: bool): Result<seq<Byte>> {
    match number
    case Err(e) => Err(e)
    case Ok(n) =>
      if signed && width == 0 then Err(ValueError)
      else if n < Low(width, signed) || n > High(width, signed) then Err(OverflowError)
      else Ok(LittleEndian(n, width))
  }

  // --------------------------------------------------------------- encoding

  function Encode(env: Env, k: Kind, v: Value): Result<seq<Byte>>
    decreases k, 1
  {
    match k
    case BoolKind =>
      (match CoerceBool(env, v)
       case Ok(b) => Ok([if b then 1 else 0])
       case Err(e) => Err(e))
    case ScalarKind(width, signed) => EncodeInt(CoerceInt(env, v), width, signed)
    case EnumKind(enum, width, signed) => EncodeInt(EnumValue(env, enum, v), width, signed)
    case ArrayKind(len, element) =>
      (match ItemsOf(env, element, v)
       case Err(e) => Err(e)
       case Ok(items) => if |items| != len then Err(ValueError) else EncodeItems(env, k, items, 0))
    case ModelKind(fields) => if v.Dict? then EncodeFields(env, k, v.entries, 0) else Err(ValueError)
    case OtherKind => Err(UnsupportedFieldError)
  }

  function Joined(first: Result<seq<Byte>>, rest: Result<seq<Byte>>): Result<seq<Byte>> {
    match first
    case Err(e) => Err(e)
    case Ok(a) => (match rest case Err(e) => Err(e) case Ok(b) => Ok(a + b))
  }

  function EncodeItems(env: Env, k: Kind, items: seq<Value>, i: nat): Result<seq<Byte>>
    requires k.ArrayKind? && i <= |items|
    decreases k, 0, |items| - i
  {
    if i == |items| then Ok([])
    else if k.element.ArrayKind? then Err(UnsupportedFieldError)
    else Joined(Encode(env, k.element, items[i]), EncodeItems(env, k, items, i + 1))
  }

  function EncodeFields(env: Env, k: Kind, given: seq<(string, Value)>, i: nat): Result<seq<Byte>>
    requires k.ModelKind? && i <= |k.fields|
    decreases k, 0, |k.fields| - i
  {
    if i == |k.fields| then Ok([])
    else
      Joined(Encode(env, k.fields[i].kind, Merged(env, k, k.fields[i], given)), EncodeFields(env, k, given, i + 1))
  }

  // ------------------------------------------------- what an encoding means

  /** The number of bytes of a kind, whatever its value. */
  function Size(k: Kind): nat
    decreases k, 1
  {
    match k
    case BoolKind => 1
    case ScalarKind(width, _) => width
    case EnumKind(_, width, _) => width
    case ArrayKind(len, element) => len * Size(element)
    case ModelKind(fields) => SizeFrom(k, 0)
    case OtherKind => 0
  }

  function SizeFrom(k: Kind, i: nat): nat
    requires k.ModelKind? && i <= |k.fields|
    decreases k, 0, |k.fields| - i
  {
    if i == |k.fields| then 0 else Size(k.fields[i].kind) + SizeFrom(k, i + 1)
  }

  /** The integers of a value, after coercion and defaults, in wire order. */
  function Leaves(env: Env, k: Kind, v: Value): seq<int>
    decreases k, 1
  {
    match k
    case BoolKind => var b := CoerceBool(env, v); [if b.Ok? && b.value then 1 else 0]
    case ScalarKind(_, _) => var n := CoerceInt(env, v); [if n.Ok? then n.value else 0]
    case EnumKind(enum, _, _) => var n := EnumValue(env, enum, v); [if n.Ok? then n.value else 0]
    case ArrayKind(_, element) =>
      var items := ItemsOf(env, element, v); if items.Ok? then LeavesOfItems(env, k, items.value, 0) else []
    case ModelKind(_) => if v.Dict? then LeavesOfFields(env, k, v.entries, 0) else []
    case OtherKind => []
  }

  function LeavesOfItems(env: Env, k: Kind, items: seq<Value>, i: nat): seq<int>
    requires k.ArrayKind? && i <= |items|
    decreases k, 0, |items| - i
  {
    if i == |items| then [] else Leaves(env, k.element, items[i]) + LeavesOfItems(env, k, items, i + 1)
  }

  function LeavesOfFields(env: Env, k: Kind, given: seq<(string, Value)>, i: nat): seq<int>
    requires k.ModelKind? && i <= |k.fields|
    decreases k, 0, |k.fields| - i
  {
    if i == |k.fields| then []
    else
      Leaves(env, k.fields[i].kind, Merged(env, k, k.fields[i], given)) + LeavesOfFields(env, k, given, i + 1)
  }

  function DecodeInt(bytes: seq<Byte>, signed: bool): int {
    if bytes == [] then 0
    else if |bytes| == 1 then (if signed && bytes[0] >= 0x80 then bytes[0] - 0x100 else bytes[0])
    else bytes[0] + 0x100 * DecodeInt(bytes[1..], signed)
  }

  /** Reads the integers of a kind back from its bytes. */
  function Decode(k: Kind, bytes: seq<Byte>): seq<int>
    requires |bytes| == Size(k)
    decreases k, 1
  {
    match k
    case BoolKind => [bytes[0]]
    case ScalarKind(_, signed) => [DecodeInt(bytes, signed)]
    case EnumKind(_, _, signed) => [DecodeInt(bytes, signed)]
    case ArrayKind(len, _) => DecodeItems(k, bytes, len)
    case ModelKind(_) => DecodeFields(k, bytes, 0)
    case OtherKind => []
  }

  function DecodeItems(k: Kind, bytes: seq<Byte>, n: nat): seq<int>
    requires k.ArrayKind? && |bytes| == n * Size(k.element)
    decreases k, 0, n
  {
    if n == 0 then []
    else
      ProductsStep(n, Size(k.element));
      Decode(k.element, bytes[..Size(k.element)]) + DecodeItems(k, bytes[Size(k.element)..], n - 1)
  }

  lemma ProductsStep(n: nat, size: nat)
    requires n > 0
    ensures n * size == size + (n - 1) * size && (n - 1) * size >= 0
  {
  }

  function DecodeFields(k: Kind, bytes: seq<Byte>, i: nat): seq<int>
    requires k.ModelKind? && i <= |k.fields| && |bytes| == SizeFrom(k, i)
    decreases k, 0, |k.fields| - i
  {
    if i == |k.fields| then []
    else
      var size := Size(k.fields[i].kind);
      Decode(k.fields[i].kind, bytes[..size]) + DecodeFields(k, bytes[size..], i + 1)
  }

  // -------------------------------------------------------- integers exactly

  lemma {:induction false} Pow2By8(n: nat)
    ensures Pow2(n + 8) == 0x100 * Pow2(n)
  {
    assert Pow2(n + 2) == 4 * Pow2(n) && Pow2(n + 4) == 4 * Pow2(n + 2);
    assert Pow2(n + 6) == 4 * Pow2(n + 4) && Pow2(n + 8) == 4 * Pow2(n + 6);
  }

  /** Every integer in the range of its width reads back from its bytes. */
  lemma {:induction false} IntRoundTrip(n: int, width: nat, signed: bool)
    requires Low(width, signed) <= n <= High(width, signed) && (signed ==> width > 0)
    ensures DecodeInt(LittleEndian(n, width), signed) == n
    decreases width
  {
    if width == 1 {
      assert Pow2(7) == 0x80 && Pow2(8) == 0x100;
      assert LittleEndian(n / 0x100, 0) == [];
    } else if width > 1 {
      if signed {
        Pow2By8(8 * width - 9);
      } else {
        Pow2By8(8 * width - 8);
      }
      IntRoundTrip(n / 0x100, width - 1, signed);
      assert LittleEndian(n, width)[1..] == LittleEndian(n / 0x100, width - 1);
    }
  }

  // ------------------------------------------------------------ main results

  /** An encoding has the size of its kind, and its integers read back from it. */
  lemma {:induction false} EncodeReadsBack(env: Env, k: Kind, v: Value)
    requires Encode(env, k, v).Ok?
    ensures |Encode(env, k, v).value| == Size(k)
    ensures Decode(k, Encode(env, k, v).value) == Leaves(env, k, v)
    decreases k, 1
  {
    match k
    case BoolKind =>
    case ScalarKind(width, signed) => IntRoundTrip(CoerceInt(env, v).value, width, signed);
    case EnumKind(enum, width, signed) => IntRoundTrip(EnumValue(env, enum, v).value, width, signed);
    case ArrayKind(_, element) => ItemsReadBack(env, k, ItemsOf(env, element, v).value, 0);
    case ModelKind(_) => FieldsReadBack(env, k, v.entries, 0);
  }

  lemma {:induction false} ItemsReadBack(env: Env, k: Kind, items: seq<Value>, i: nat)
    requires k.ArrayKind? && i <= |items| && EncodeItems(env, k, items, i).Ok?
    ensures |EncodeItems(env, k, items, i).value| == (|items| - i) * Size(k.element)
    ensures DecodeItems(k, EncodeItems(env, k, items, i).value, |items| - i) == LeavesOfItems(env, k, items, i)
    decreases k, 0, |items| - i
  {
    if i == |items| {
    } else {
      EncodeReadsBack(env, k.element, items[i]);
      ItemsReadBack(env, k, items, i + 1);
      ProductsStep(|items| - i, Size(k.element));
      var first := Encode(env, k.element, items[i]).value;
      var all := EncodeItems(env, k, items, i).value;
      assert all[..|first|] == first && all[|first|..] == EncodeItems(env, k, items, i + 1).value;
    }
  }

  lemma {:induction false} FieldsReadBack(env: Env, k: Kind, given: seq<(string, Value)>, i: nat)
    requires k.ModelKind? && i <= |k.fields| && EncodeFields(env, k, given, i).Ok?
    ensures |EncodeFields(env, k, given, i).value| == SizeFrom(k, i)
    ensures DecodeFields(k, EncodeFields(env, k, given, i).value, i) == LeavesOfFields(env, k, given, i)
    decreases k, 0, |k.fields| - i
  {
    if i == |k.fields| {
    } else {
      var v := Merged(env, k, k.fields[i], given);
      EncodeReadsBack(env, k.fields[i].kind, v);
      FieldsReadBack(env, k, given, i + 1);
      var first := Encode(env, k.fields[i].kind, v).value;
      var all := EncodeFields(env, k, given, i).value;
      assert all[..|first|] == first && all[|first|..] == EncodeFields(env, k, given, i + 1).value;
    }
  }

  /** Every value that a model encodes takes the same number of bytes. */
  lemma EncodingLengthIsFixed(env: Env, k: Kind, v: Value, w: Value)
    requires Encode(env, k, v).Ok? && Encode(env, k, w).Ok?
    ensures |Encode(env, k, v).value| == |Encode(env, k, w).value|
  {
    EncodeReadsBack(env, k, v);
    EncodeReadsBack(env, k, w);
  }

  /** Two values with the same encoding hold the same integers, after defaults. */
  lemma EncodingDeterminesIntegers(env: Env, k: Kind, v: Value, w: Value)
    requires Encode(env, k, v).Ok? && Encode(env, k, v) == Encode(env, k, w)
    ensures Leaves(env, k, v) == Leaves(env, k, w)
  {
    EncodeReadsBack(env, k, v);
    EncodeReadsBack(env, k, w);
  }
}
