/**
 Which bytes stand for which values, said without the encoder: the encoder
 succeeds exactly on the values that have such bytes, and gives them.
 */
module WireSyntax {
  import opened Common
  import opened ByteRing
  import opened Wire

  // ------------------------------------------------------------ plain values

  predicate IsTruth(env: Env, v: Value, b: bool) {
    v == Bool(b) || (v.Int? && b == (v.number != 0)) || (v.Str? && env.boolOf(v.text) == Some(b))
  }

  predicate IsInteger(env: Env, v: Value, n: int) {
    v == Int(n) || (v == Bool(true) && n == 1) || (v == Bool(false) && n == 0)
    || (v.Str? && env.intOf(v.text) == Some(n))
  }

  predicate IsEnumerator(env: Env, enum: string, v: Value, n: int) {
    if v.Str? then env.enumOf(enum, v.text) == Some(n) else IsInteger(env, v, n)
  }

  /** The bytes are the integer, in two's complement if signed. */
  predicate Holds(bytes: seq<Byte>, width: nat, signed: bool, n: int) {
    |bytes| == width && DecodeInt(bytes, signed) == n && (signed ==> width > 0)
  }

  /** The items an array value has: text and byte strings stand for bytes where numbers are wanted. */
  predicate AreItems(env: Env, element: Kind, v: Value, items: seq<Value>) {
    match v
    case Str(s) =>
      if element.ScalarKind? then env.hexOf(s).Some? && AreNumbers(env.hexOf(s).value, items)
      else |items| == |s| && forall i :: 0 <= i < |s| ==> items[i] == Str([s[i]])
    case Bytes(bytes) => AreNumbers(bytes, items)
    case List(list) => items == list
    case Dict(entries) => |items| == |entries| && forall i :: 0 <= i < |entries| ==> items[i] == Str(entries[i].0)
    case NoValue => items == []
    case Int(n) => n == 0 && items == []
    case Bool(b) => !b && items == []
  }

  predicate AreNumbers(bytes: seq<Byte>, items: seq<Value>) {
    |items| == |bytes| && forall i :: 0 <= i < |bytes| ==> items[i] == Int(bytes[i])
  }

  // --------------------------------------------------------------- defaults

  predicate IsDefault(env: Env, k: Kind, v: Value)
    decreases k
  {
    match k
    case BoolKind => v == Bool(false)
    case ScalarKind(_, _) => v == Int(0)
    case EnumKind(enum, _, _) => if env.firstOf(enum).Some? then v == Str(env.firstOf(enum).value) else v == NoValue
    case ArrayKind(len, element) =>
      && v.List? && |v.items| == len
      && forall i :: 0 <= i < len ==> if element.ArrayKind? then v.items[i] == NoValue
                                      else IsDefault(env, element, v.items[i])
    case ModelKind(fields) =>
      && v.Dict? && |v.entries| == |fields|
      && forall i :: 0 <= i < |fields| ==>
           v.entries[i].0 == fields[i].name && IsFieldDefault(env, fields[i], v.entries[i].1)
    case OtherKind => v == NoValue
  }

  /** A field's own default, if it has one, and else that of its kind. */
  predicate IsFieldDefault(env: Env, f: Field, v: Value)
    decreases f
  {
    if f.default.Some? && f.default.value != NoValue then v == f.default.value else IsDefault(env, f.kind, v)
  }

  lemma {:induction false} DefaultExactly(env: Env, k: Kind, v: Value)
    ensures IsDefault(env, k, v) <==> v == DefaultOf(env, k)
    decreases k
  {
    match k
    case ArrayKind(len, element) =>
      if v.List? && |v.items| == len {
        var items := DefaultOf(env, k).items;
        forall i | 0 <= i < len && !element.ArrayKind?
          ensures IsDefault(env, element, v.items[i]) <==> v.items[i] == items[i]
        {
          DefaultExactly(env, element, v.items[i]);
        }
        assert IsDefault(env, k, v) ==> v.items == items;
      }
    case ModelKind(fields) =>
      if v.Dict? && |v.entries| == |fields| {
        var entries := DefaultOf(env, k).entries;
        forall i | 0 <= i < |fields|
          ensures IsFieldDefault(env, fields[i], v.entries[i].1) <==> v.entries[i].1 == entries[i].1
        {
          FieldDefaultExactly(env, fields[i], v.entries[i].1);
        }
        assert IsDefault(env, k, v) ==> v.entries == entries;
      }
    case _ =>
  }

  lemma {:induction false} FieldDefaultExactly(env: Env, f: Field, v: Value)
    ensures IsFieldDefault(env, f, v) <==> v == DefaultValue(env, f)
    decreases f
  {
    DefaultExactly(env, f.kind, v);
  }

  // ----------------------------------------------------------------- fields

  /** Entry `j` is the last one with a name. */
  predicate IsLast(entries: seq<(string, Value)>, name: string, j: nat) {
    && j < |entries| && entries[j].0 == name
    && forall l :: j < l < |entries| ==> entries[l].0 != name
  }

  predicate Names(entries: seq<(string, Value)>, name: string) {
    exists j :: 0 <= j < |entries| && entries[j].0 == name
  }

  /** Field `j` is the last one with a name. */
  predicate IsLastField(fields: seq<Field>, name: string, j: nat) {
    && j < |fields| && fields[j].name == name
    && forall l :: j < l < |fields| ==> fields[l].name != name
  }

  /** The value a field has: the last one the caller gives it, and else its default. */
  ghost predicate IsChosen(env: Env, k: Kind, given: seq<(string, Value)>, name: string, v: Value)
    requires k.ModelKind?
  {
    if Names(given, name) then exists j: nat :: IsLast(given, name, j) && v == given[j].1
    else exists j: nat :: IsLastField(k.fields, name, j) && IsFieldDefault(env, k.fields[j], v)
  }

  lemma {:induction false} LookupIsLast(entries: seq<(string, Value)>, name: string, j: nat)
    requires IsLast(entries, name, j)
    ensures Lookup(entries, name) == Some(entries[j].1)
  {
    if j < |entries| - 1 {
      LookupIsLast(entries[..|entries| - 1], name, j);
    }
  }

  lemma {:induction false} LastExists(entries: seq<(string, Value)>, name: string) returns (j: nat)
    requires Names(entries, name)
    ensures IsLast(entries, name, j)
  {
    j := |entries| - 1;
    while entries[j].0 != name
      invariant 0 <= j < |entries| && forall l :: j < l < |entries| ==> entries[l].0 != name
      invariant exists i :: 0 <= i <= j && entries[i].0 == name
      decreases j
    {
      j := j - 1;
    }
  }

  lemma DefaultsOfFields(env: Env, k: Kind)
    requires k.ModelKind?
    ensures var d := DefaultOf(env, k);
      && d.Dict? && |d.entries| == |k.fields|
      && forall i :: 0 <= i < |k.fields| ==>
           d.entries[i].0 == k.fields[i].name && d.entries[i].1 == DefaultValue(env, k.fields[i])
  {
  }

  lemma MergedIsChosen(env: Env, k: Kind, given: seq<(string, Value)>, i: nat, v: Value)
    requires k.ModelKind? && i < |k.fields|
    ensures IsChosen(env, k, given, k.fields[i].name, v) <==> v == Merged(env, k, k.fields[i], given)
  {
    DefaultsOfFields(env, k);
    var defaults, name := DefaultOf(env, k).entries, k.fields[i].name;
    var all := defaults + given;
    hide DefaultOf, DefaultValue, Lookup, IsFieldDefault;
    if Names(given, name) {
      var j := LastExists(given, name);
      assert IsLast(all, name, |defaults| + j);
      LookupIsLast(all, name, |defaults| + j);
    } else {
      assert defaults[i].0 == name;
      var j := LastExists(defaults, name);
      assert IsLast(all, name, j);
      LookupIsLast(all, name, j);
      FieldDefaultExactly(env, k.fields[j], v);
      assert forall l :: 0 <= l < |k.fields| ==> defaults[l].0 == k.fields[l].name;
      assert IsLastField(k.fields, name, j);
    }
  }

  // ---------------------------------------------------------------- integers

  /** An integer has such bytes exactly if it fits, and then only these. */
  lemma {:induction false} HoldsExactly(bytes: seq<Byte>, width: nat, signed: bool, n: int)
    ensures Holds(bytes, width, signed, n)
       <==> (signed ==> width > 0) && Low(width, signed) <= n <= High(width, signed)
            && bytes == LittleEndian(n, width)
    decreases width
  {
    if (signed ==> width > 0) && Low(width, signed) <= n <= High(width, signed) {
      IntRoundTrip(n, width, signed);
    }
    if Holds(bytes, width, signed, n) {
      DecodedFits(bytes, signed);
    }
  }

  lemma FirstByte(n: int, first: Byte, more: int, width: nat)
    requires n == first + 0x100 * more && width > 0
    ensures LittleEndian(n, width) == [first] + LittleEndian(more, width - 1)
  {
    assert LittleEndian(n, width) == [n % 0x100] + LittleEndian(n / 0x100, width - 1);
    hide LittleEndian;
    assert n / 0x100 == more;
    assert n % 0x100 == first;
  }

  lemma {:induction false} DecodedFits(bytes: seq<Byte>, signed: bool)
    requires signed ==> bytes != []
    ensures Low(|bytes|, signed) <= DecodeInt(bytes, signed) <= High(|bytes|, signed)
    ensures LittleEndian(DecodeInt(bytes, signed), |bytes|) == bytes
  {
    if |bytes| == 1 {
      assert Pow2(7) == 0x80 && Pow2(8) == 0x100;
      assert LittleEndian(DecodeInt(bytes, signed) / 0x100, 0) == [];
    } else if |bytes| > 1 {
      var more := bytes[1..];
      DecodedFits(more, signed);
      FirstByte(DecodeInt(bytes, signed), bytes[0], DecodeInt(more, signed), |bytes|);
      Pow2By8(if signed then 8 * |bytes| - 9 else 8 * |bytes| - 8);
      hide LittleEndian;
      assert bytes == [bytes[0]] + more;
    }
  }

  // --------------------------------------------------------------- encodings

  /** The bytes that a value of a kind is written as. */
  ghost predicate Spells(env: Env, k: Kind, v: Value, bytes: seq<Byte>)
    decreases k, 1
  {
    match k
    case BoolKind => exists b :: IsTruth(env, v, b) && bytes == [if b then 1 else 0]
    case ScalarKind(width, signed) => exists n :: IsInteger(env, v, n) && Holds(bytes, width, signed, n)
    case EnumKind(enum, width, signed) => exists n :: IsEnumerator(env, enum, v, n) && Holds(bytes, width, signed, n)
    case ArrayKind(len, element) =>
      exists items, parts ::
        AreItems(env, element, v, items) && |items| == len && SpellItems(env, k, items, parts) && bytes == Concat(parts)
    case ModelKind(_) =>
      v.Dict? && exists parts :: SpellFields(env, k, v.entries, 0, parts) && bytes == Concat(parts)
    case OtherKind => false
  }

  /** The parts spell the items one by one; an array of arrays is not supported. */
  ghost predicate SpellItems(env: Env, k: Kind, items: seq<Value>, parts: seq<seq<Byte>>)
    requires k.ArrayKind?
    decreases k, 0
  {
    && |parts| == |items|
    && forall j :: 0 <= j < |parts| ==> !k.element.ArrayKind? && Spells(env, k.element, items[j], parts[j])
  }

  /** The bytes spell the value that field `i` has. */
  ghost predicate SpellsField(env: Env, k: Kind, i: nat, given: seq<(string, Value)>, bytes: seq<Byte>)
    requires k.ModelKind? && i < |k.fields|
    decreases k, 0, 0
  {
    exists w :: IsChosen(env, k, given, k.fields[i].name, w) && Spells(env, k.fields[i].kind, w, bytes)
  }

  /** The parts spell the fields from the `i`th on. */
  ghost predicate SpellFields(env: Env, k: Kind, given: seq<(string, Value)>, i: nat, parts: seq<seq<Byte>>)
    requires k.ModelKind? && i <= |k.fields|
    decreases k, 0, 1
  {
    && |parts| == |k.fields| - i
    && forall j :: 0 <= j < |parts| ==> SpellsField(env, k, i + j, given, parts[j])
  }

  // ------------------------------------------------------------ main results

  lemma {:induction false} ConcatFirst(first: seq<Byte>, parts: seq<seq<Byte>>)
    ensures Concat([first] + parts) == first + Concat(parts)
  {
    var all := [first] + parts;
    LastOfMore(first, parts);
    if parts != [] {
      var front, last := parts[..|parts| - 1], parts[|parts| - 1];
      ConcatFirst(first, front);
      assert Concat(all) == Concat([first] + front) + last;
      assert Concat(parts) == Concat(front) + last;
      hide Concat;
      Associative(first, Concat(front), last);
    }
  }

  lemma LastOfMore(first: seq<Byte>, parts: seq<seq<Byte>>)
    ensures var all := [first] + parts;
      && all[|all| - 1] == (if parts == [] then first else parts[|parts| - 1])
      && all[..|all| - 1] == if parts == [] then [] else [first] + parts[..|parts| - 1]
  {
  }

  lemma Associative(a: seq<Byte>, b: seq<Byte>, c: seq<Byte>)
    ensures (a + b) + c == a + (b + c)
  {
  }

  lemma ItemsAre(env: Env, element: Kind, v: Value, items: seq<Value>)
    ensures AreItems(env, element, v, items) <==> ItemsOf(env, element, v) == Ok(items)
  {
    var of := ItemsOf(env, element, v);
    if AreItems(env, element, v, items) {
      assert of.Ok? && |of.value| == |items|;
      assert forall i :: 0 <= i < |items| ==> of.value[i] == items[i];
      assert of.value == items;
    }
  }

  lemma TruthEncodes(env: Env, v: Value, bytes: seq<Byte>)
    ensures Encode(env, BoolKind, v) == Ok(bytes) <==> Spells(env, BoolKind, v, bytes)
  {
    assert forall b :: IsTruth(env, v, b) <==> CoerceBool(env, v) == Ok(b);
  }

  lemma IntegerEncodes(number: Result<int>, n: int, width: nat, signed: bool, bytes: seq<Byte>)
    requires number == Ok(n)
    ensures EncodeInt(number, width, signed) == Ok(bytes) <==> Holds(bytes, width, signed, n)
  {
    HoldsExactly(bytes, width, signed, n);
  }

  lemma NumberEncodes(env: Env, v: Value, width: nat, signed: bool, bytes: seq<Byte>)
    ensures Encode(env, ScalarKind(width, signed), v) == Ok(bytes) <==> Spells(env, ScalarKind(width, signed), v, bytes)
  {
    var number := CoerceInt(env, v);
    assert forall n :: IsInteger(env, v, n) <==> number == Ok(n);
    if number.Ok? {
      IntegerEncodes(number, number.value, width, signed, bytes);
    }
  }

  lemma EnumeratorEncodes(env: Env, enum: string, v: Value, width: nat, signed: bool, bytes: seq<Byte>)
    ensures var k := EnumKind(enum, width, signed);
      Encode(env, k, v) == Ok(bytes) <==> Spells(env, k, v, bytes)
  {
    var number := EnumValue(env, enum, v);
    assert forall n :: IsEnumerator(env, enum, v, n) <==> number == Ok(n);
    if number.Ok? {
      IntegerEncodes(number, number.value, width, signed, bytes);
    }
  }

  /** What the encoder gives spells the value. */
  lemma {:induction false} EncodingSpells(env: Env, k: Kind, v: Value)
    requires Encode(env, k, v).Ok?
    ensures Spells(env, k, v, Encode(env, k, v).value)
    decreases k, 1
  {
    var bytes := Encode(env, k, v).value;
    match k
    case BoolKind => TruthEncodes(env, v, bytes);
    case ScalarKind(width, signed) => NumberEncodes(env, v, width, signed, bytes);
    case EnumKind(enum, width, signed) => EnumeratorEncodes(env, enum, v, width, signed, bytes);
    case ArrayKind(len, element) =>
      var items := ItemsOf(env, element, v).value;
      ItemsAre(env, element, v, items);
      var parts := ItemsSpell(env, k, items, 0);
      assert items[0..] == items;
    case ModelKind(_) => var parts := FieldsSpell(env, k, v.entries, 0);
    case OtherKind =>
  }

  lemma {:induction false} ItemsSpell(env: Env, k: Kind, items: seq<Value>, i: nat) returns (parts: seq<seq<Byte>>)
    requires k.ArrayKind? && i <= |items| && EncodeItems(env, k, items, i).Ok?
    ensures SpellItems(env, k, items[i..], parts) && EncodeItems(env, k, items, i).value == Concat(parts)
    decreases k, 0, |items| - i
  {
    if i == |items| {
      parts := [];
    } else {
      var first := Encode(env, k.element, items[i]).value;
      EncodingSpells(env, k.element, items[i]);
      hide Spells, Encode;
      var more := ItemsSpell(env, k, items, i + 1);
      parts := [first] + more;
      ConcatFirst(first, more);
      assert items[i..] == [items[i]] + items[i + 1..];
    }
  }

  lemma {:induction false} FieldsSpell(env: Env, k: Kind, given: seq<(string, Value)>, i: nat)
    returns (parts: seq<seq<Byte>>)
    requires k.ModelKind? && i <= |k.fields| && EncodeFields(env, k, given, i).Ok?
    ensures SpellFields(env, k, given, i, parts) && EncodeFields(env, k, given, i).value == Concat(parts)
    decreases k, 0, |k.fields| - i
  {
    if i == |k.fields| {
      parts := [];
    } else {
      var v := Merged(env, k, k.fields[i], given);
      var first := Encode(env, k.fields[i].kind, v).value;
      EncodingSpells(env, k.fields[i].kind, v);
      MergedIsChosen(env, k, given, i, v);
      assert SpellsField(env, k, i, given, first);
      hide Spells, Encode, SpellsField, Merged;
      var more := FieldsSpell(env, k, given, i + 1);
      parts := [first] + more;
      ConcatFirst(first, more);
      forall j | 0 <= j < |parts| ensures SpellsField(env, k, i + j, given, parts[j]) {
        assert j > 0 ==> SpellsField(env, k, i + 1 + (j - 1), given, more[j - 1]);
      }
    }
  }

  /** What spells the value is what the encoder gives. */
  lemma {:induction false} SpellingEncodes(env: Env, k: Kind, v: Value, bytes: seq<Byte>)
    requires Spells(env, k, v, bytes)
    ensures Encode(env, k, v) == Ok(bytes)
    decreases k, 1
  {
    match k
    case BoolKind => TruthEncodes(env, v, bytes);
    case ScalarKind(width, signed) => NumberEncodes(env, v, width, signed, bytes);
    case EnumKind(enum, width, signed) => EnumeratorEncodes(env, enum, v, width, signed, bytes);
    case ArrayKind(len, element) =>
      var items, parts :|
        AreItems(env, element, v, items) && |items| == len
        && SpellItems(env, k, items, parts) && bytes == Concat(parts);
      ItemsAre(env, element, v, items);
      assert items[0..] == items;
      SpelledItemsEncode(env, k, items, 0, parts);
    case ModelKind(_) =>
      var parts :| SpellFields(env, k, v.entries, 0, parts) && bytes == Concat(parts);
      SpelledFieldsEncode(env, k, v.entries, 0, parts);
  }

  lemma {:induction false} SpelledItemsEncode(env: Env, k: Kind, items: seq<Value>, i: nat, parts: seq<seq<Byte>>)
    requires k.ArrayKind? && i <= |items| && SpellItems(env, k, items[i..], parts)
    ensures EncodeItems(env, k, items, i) == Ok(Concat(parts))
    decreases k, 0, |items| - i
  {
    if i < |items| {
      SpellingEncodes(env, k.element, items[i], parts[0]);
      hide Spells, Encode;
      SpelledItemsEncode(env, k, items, i + 1, parts[1..]);
      ConcatFirst(parts[0], parts[1..]);
      assert parts == [parts[0]] + parts[1..];
    }
  }

  lemma {:induction false} SpelledFieldsEncode(env: Env, k: Kind, given: seq<(string, Value)>, i: nat,
                                               parts: seq<seq<Byte>>)
    requires k.ModelKind? && i <= |k.fields| && SpellFields(env, k, given, i, parts)
    ensures EncodeFields(env, k, given, i) == Ok(Concat(parts))
    decreases k, 0, |k.fields| - i
  {
    if i < |k.fields| {
      assert SpellsField(env, k, i + 0, given, parts[0]);
      var v :| IsChosen(env, k, given, k.fields[i].name, v) && Spells(env, k.fields[i].kind, v, parts[0]);
      MergedIsChosen(env, k, given, i, v);
      SpellingEncodes(env, k.fields[i].kind, v, parts[0]);
      hide Spells, Encode, SpellsField, Merged;
      var more := parts[1..];
      forall j | 0 <= j < |more| ensures SpellsField(env, k, i + 1 + j, given, more[j]) {
        assert SpellsField(env, k, i + (j + 1), given, parts[j + 1]);
      }
      SpelledFieldsEncode(env, k, given, i + 1, more);
      ConcatFirst(parts[0], more);
      assert parts == [parts[0]] + more;
    }
  }

  /**
   The encoder succeeds exactly on the values that have bytes, and gives these: each
   field takes the last value the caller names for it, or else its default; every
   number fits its width and sign; arrays have their length.
   */
  lemma EncodesExactly(env: Env, k: Kind, v: Value, bytes: seq<Byte>)
    ensures Encode(env, k, v) == Ok(bytes) <==> Spells(env, k, v, bytes)
  {
    hide Encode, Spells;
    if Encode(env, k, v) == Ok(bytes) {
      EncodingSpells(env, k, v);
    }
    if Spells(env, k, v, bytes) {
      SpellingEncodes(env, k, v, bytes);
    }
  }

  /** A model's default is written as what the model is written as when nothing is given. */
  lemma DefaultIsNothingGiven(env: Env, k: Kind)
    requires k.ModelKind?
    ensures Encode(env, k, DefaultOf(env, k)) == Encode(env, k, Dict([]))
  {
    DefaultFieldsAreNothingGiven(env, k, 0);
  }

  lemma {:induction false} DefaultFieldsAreNothingGiven(env: Env, k: Kind, i: nat)
    requires k.ModelKind? && i <= |k.fields|
    ensures EncodeFields(env, k, DefaultOf(env, k).entries, i) == EncodeFields(env, k, [], i)
    decreases |k.fields| - i
  {
    if i == |k.fields| {
    } else {
      var defaults, name := DefaultOf(env, k).entries, k.fields[i].name;
      assert defaults[i].0 == name;
      var j := LastExists(defaults, name);
      LookupIsLast(defaults + [], name, j);
      LookupIsLast(defaults + defaults, name, |defaults| + j);
      DefaultFieldsAreNothingGiven(env, k, i + 1);
    }
  }

  // ----------------------------------------------------------------- errors

  /** What an integer that has no bytes raises; `readAs` tells the integers it may be read as. */
  ghost predicate IntegerRaises(readAs: int -> bool, width: nat, signed: bool, e: Error) {
    if exists n :: readAs(n) then e == (if signed && width == 0 then ValueError else OverflowError)
    else e == ValueError
  }

  /** The error of a value that has no bytes: that of the first item or field that has none. */
  ghost predicate Raises(env: Env, k: Kind, v: Value, e: Error)
    decreases k, 1
  {
    match k
    case BoolKind => e == ValueError
    case ScalarKind(width, signed) => IntegerRaises(n => IsInteger(env, v, n), width, signed, e)
    case EnumKind(enum, width, signed) => IntegerRaises(n => IsEnumerator(env, enum, v, n), width, signed, e)
    case ArrayKind(len, element) =>
      if exists items :: AreItems(env, element, v, items) then
        exists items :: AreItems(env, element, v, items)
                        && if |items| != len then e == ValueError else ItemsRaise(env, k, items, e)
      else e == if v.Int? || v.Bool? then TypeError else ValueError
    case ModelKind(_) => if v.Dict? then FieldsRaise(env, k, v.entries, e) else e == ValueError
    case OtherKind => e == UnsupportedFieldError
  }

  ghost predicate HasBytes(env: Env, k: Kind, v: Value) {
    exists bytes :: Spells(env, k, v, bytes)
  }

  ghost predicate FieldHasBytes(env: Env, k: Kind, i: nat, given: seq<(string, Value)>)
    requires k.ModelKind? && i < |k.fields|
  {
    exists bytes :: SpellsField(env, k, i, given, bytes)
  }

  ghost predicate ItemsRaise(env: Env, k: Kind, items: seq<Value>, e: Error)
    requires k.ArrayKind?
    decreases k, 0, 1
  {
    exists i :: 0 <= i < |items| && ItemRaises(env, k, items[i], e)
                && forall j :: 0 <= j < i ==> HasBytes(env, k.element, items[j])
  }

  ghost predicate ItemRaises(env: Env, k: Kind, item: Value, e: Error)
    requires k.ArrayKind?
    decreases k, 0, 0
  {
    if k.element.ArrayKind? then e == UnsupportedFieldError else Raises(env, k.element, item, e)
  }

  ghost predicate FieldsRaise(env: Env, k: Kind, given: seq<(string, Value)>, e: Error)
    requires k.ModelKind?
    decreases k, 0, 1
  {
    exists i :: 0 <= i < |k.fields| && FieldRaises(env, k, i, given, e)
                && forall j :: 0 <= j < i ==> FieldHasBytes(env, k, j, given)
  }

  ghost predicate FieldRaises(env: Env, k: Kind, i: nat, given: seq<(string, Value)>, e: Error)
    requires k.ModelKind? && i < |k.fields|
    decreases k, 0, 0
  {
    exists w :: IsChosen(env, k, given, k.fields[i].name, w) && Raises(env, k.fields[i].kind, w, e)
  }

  lemma IntegerRaisesSo(number: Result<int>, readAs: int -> bool, width: nat, signed: bool)
    requires forall n :: readAs(n) <==> number == Ok(n)
    requires number.Err? ==> number.error == ValueError
    requires EncodeInt(number, width, signed).Err?
    ensures IntegerRaises(readAs, width, signed, EncodeInt(number, width, signed).error)
  {
  }

  /** The encoder's error is that of the first item or field without bytes. */
  lemma {:induction false} EncodingRaises(env: Env, k: Kind, v: Value)
    requires Encode(env, k, v).Err?
    ensures Raises(env, k, v, Encode(env, k, v).error)
    decreases k, 1
  {
    match k
    case BoolKind =>
    case ScalarKind(width, signed) =>
      IntegerRaisesSo(CoerceInt(env, v), n => IsInteger(env, v, n), width, signed);
    case EnumKind(enum, width, signed) =>
      IntegerRaisesSo(EnumValue(env, enum, v), n => IsEnumerator(env, enum, v, n), width, signed);
    case ArrayKind(len, element) =>
      forall items ensures AreItems(env, element, v, items) <==> ItemsOf(env, element, v) == Ok(items) {
        ItemsAre(env, element, v, items);
      }
      var items := ItemsOf(env, element, v);
      if items.Ok? && |items.value| == len {
        ItemsRaiseSo(env, k, items.value, 0);
      }
    case ModelKind(_) =>
      if v.Dict? {
        FieldsRaiseSo(env, k, v.entries, 0);
      }
    case OtherKind =>
  }

  lemma {:induction false} ItemsRaiseSo(env: Env, k: Kind, items: seq<Value>, i: nat)
    requires k.ArrayKind? && i <= |items| && EncodeItems(env, k, items, i).Err?
    requires forall j :: 0 <= j < i ==> HasBytes(env, k.element, items[j])
    ensures ItemsRaise(env, k, items, EncodeItems(env, k, items, i).error)
    decreases k, 0, |items| - i
  {
    if k.element.ArrayKind? {
      assert ItemRaises(env, k, items[i], UnsupportedFieldError);
    } else if Encode(env, k.element, items[i]).Err? {
      EncodingRaises(env, k.element, items[i]);
      assert ItemRaises(env, k, items[i], Encode(env, k.element, items[i]).error);
    } else {
      EncodingSpells(env, k.element, items[i]);
      ItemsRaiseSo(env, k, items, i + 1);
    }
  }

  lemma {:induction false} FieldsRaiseSo(env: Env, k: Kind, given: seq<(string, Value)>, i: nat)
    requires k.ModelKind? && i <= |k.fields| && EncodeFields(env, k, given, i).Err?
    requires forall j :: 0 <= j < i ==> FieldHasBytes(env, k, j, given)
    ensures FieldsRaise(env, k, given, EncodeFields(env, k, given, i).error)
    decreases k, 0, |k.fields| - i
  {
    var v := Merged(env, k, k.fields[i], given);
    MergedIsChosen(env, k, given, i, v);
    if Encode(env, k.fields[i].kind, v).Err? {
      EncodingRaises(env, k.fields[i].kind, v);
      assert FieldRaises(env, k, i, given, Encode(env, k.fields[i].kind, v).error);
    } else {
      EncodingSpells(env, k.fields[i].kind, v);
      assert SpellsField(env, k, i, given, Encode(env, k.fields[i].kind, v).value);
      FieldsRaiseSo(env, k, given, i + 1);
    }
  }
}
