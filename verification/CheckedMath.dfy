/**
 Overflow-checked integer arithmetic over every pair of fixed-width integer types
 that the library admits.
 */
module CheckedMath {
  import opened Common

  /**
   A two's complement integer type; `digits` are its value bits, without the sign.
   `tag` tells apart the types that agree in both, such as `char` and `int8_t`.
   */
  datatype IntType = IntType(signed: bool, digits: nat, tag: nat)

  function Max(t: IntType): int {
    Pow2(t.digits) - 1
  }

  function Min(t: IntType): int {
    if t.signed then 0 - Pow2(t.digits) else 0
  }

  predicate Fits(t: IntType, x: int) {
    Min(t) <= x <= Max(t)
  }

  const INT := IntType(true, 31, 0)

  /** The pairs of types that may be mixed: same signedness, or a signed type with more value bits. */
  predicate SafePair(a: IntType, b: IntType) {
    || a.signed == b.signed
    || (a.signed && b.digits < a.digits)
    || (b.signed && a.digits < b.digits)
  }

  /** Integral promotion: types narrower than `int` become `int`. */
  function Promote(t: IntType): IntType {
    if t.digits < INT.digits then INT else t
  }

  /** The common type of two types of the same signedness. */
  function CommonType(a: IntType, b: IntType): IntType {
    if a == b then a
    else
      var p, q := Promote(a), Promote(b);
      if q == INT || p.digits > q.digits then p else q
  }

  function ResultType(a: IntType, b: IntType): IntType {
    if a.signed == b.signed then CommonType(a, b) else if a.signed then a else b
  }

  /** Division as C++ does it, truncating toward zero. */
  function TruncDiv(x: int, y: int): int
    requires y != 0
  {
    if x >= 0 then (if y > 0 then x / y else -(x / -y))
    else (if y > 0 then -(-x / y) else -x / -y)
  }

  // ------------------------------------------------------------- the checks

  function WillOverflowAdd(r: IntType, x: int, y: int): bool {
    if !r.signed then x > Max(r) - y
    else if y > 0 then x > Max(r) - y
    else if y < 0 then x < Min(r) - y
    else false
  }

  function WillOverflowSub(r: IntType, x: int, y: int): bool {
    if !r.signed then x < y
    else if y < 0 then x > Max(r) + y
    else if y > 0 then x < Min(r) + y
    else false
  }

  function WillOverflowMul(r: IntType, x: int, y: int): bool {
    if !r.signed then y != 0 && x > TruncDiv(Max(r), y)
    else if x == 0 || y == 0 then false
    else if x > 0 then
      if y > 0 then x > TruncDiv(Max(r), y) else y < TruncDiv(Min(r), x)
    else if y > 0 then x < TruncDiv(Min(r), y)
    else x < TruncDiv(Max(r), y)
  }

  function WillOverflowDiv(r: IntType, x: int, y: int): bool {
    if y == 0 then true else if !r.signed then false else x == Min(r) && y == -1
  }

  function SafeAdd(a: IntType, b: IntType, x: int, y: int): Option<int> {
    if WillOverflowAdd(ResultType(a, b), x, y) then None else Some(x + y)
  }

  function SafeSub(a: IntType, b: IntType, x: int, y: int): Option<int> {
    if WillOverflowSub(ResultType(a, b), x, y) then None else Some(x - y)
  }

  function SafeMul(a: IntType, b: IntType, x: int, y: int): Option<int> {
    if WillOverflowMul(ResultType(a, b), x, y) then None else Some(x * y)
  }

  function SafeDiv(a: IntType, b: IntType, x: int, y: int): Option<int> {
    if WillOverflowDiv(ResultType(a, b), x, y) then None else Some(TruncDiv(x, y))
  }

  // ------------------------------------------------------------ conversions

  /** A type whose every value another type can hold. */
  predicate Widens(a: IntType, r: IntType) {
    a.digits <= r.digits && (a.signed ==> r.signed)
  }

  lemma WideningKeepsValues(a: IntType, r: IntType, x: int)
    requires Widens(a, r) && Fits(a, x)
    ensures Fits(r, x)
  {
    Pow2Grows(a.digits, r.digits);
  }

  /** No operand of an admitted pair changes its value in the result type. */
  lemma ConversionIsLossless(a: IntType, b: IntType, x: int, y: int)
    requires SafePair(a, b) && Fits(a, x) && Fits(b, y)
    ensures Fits(ResultType(a, b), x) && Fits(ResultType(a, b), y)
  {
    hide Fits;
    WideningKeepsValues(a, ResultType(a, b), x);
    WideningKeepsValues(b, ResultType(a, b), y);
  }

  // ------------------------------------------------ what the types stand for

  /** The values of a type with that many value bits. */
  predicate InRange(t: IntType, x: int) {
    x < Pow2(t.digits) && if t.signed then x >= 0 - Pow2(t.digits) else x >= 0
  }

  lemma FitsExactly(t: IntType, x: int)
    ensures Fits(t, x) <==> InRange(t, x)
  {
  }

  /**
   The type in which two types meet: one type with itself stays; of a signed and an
   unsigned one it is the signed one; types narrower than `int` meet in `int`; and
   else it is as wide as the wider of the two.
   */
  lemma TypesMeet(a: IntType, b: IntType)
    requires SafePair(a, b)
    ensures var r := ResultType(a, b);
      && (a == b ==> r == a)
      && (a.signed && !b.signed ==> r == a) && (!a.signed && b.signed ==> r == b)
      && (a.signed == b.signed && a != b && a.digits < 31 && b.digits < 31 ==> r == IntType(true, 31, 0))
      && (a.signed == b.signed && a.digits < b.digits && b.digits >= 31 ==> r == b)
      && (a.signed == b.signed && b.digits < a.digits && a.digits >= 31 ==> r == a)
      && (a.signed == b.signed && a != b && a.digits == b.digits >= 31 ==> r == a || r == b)
  {
  }

  /** `q` is the quotient without its fraction, as the sign of the remainder tells. */
  predicate IsQuotient(q: int, x: int, y: int) {
    var rest := x - q * y;
    if x >= 0 then 0 <= rest < (if y > 0 then y else -y) else (if y > 0 then -y else y) < rest <= 0
  }

  lemma TruncDivIsQuotient(x: int, y: int)
    requires y != 0
    ensures IsQuotient(TruncDiv(x, y), x, y)
  {
    var m, n := if x >= 0 then x else -x, if y > 0 then y else -y;
    var q := m / n;
    assert m == q * n + m % n;
    SignsOfProducts(q, n);
  }

  // -------------------------------------------------------------- exactness

  /** A positive quotient bounds exactly the factors whose product fits. */
  lemma FactorBound(m: nat, d: nat, f: int)
    requires d > 0
    ensures f > m / d <==> f * d > m
  {
    var q := m / d;
    assert q * d <= m < (q + 1) * d;
    ProductsGrow(q + 1, f, d);
    ProductsGrow(f, q, d);
  }

  /** An addition is refused exactly when its sum leaves the result type; its checks stay inside. */
  lemma AddExactly(r: IntType, x: int, y: int)
    requires Fits(r, x) && Fits(r, y)
    ensures WillOverflowAdd(r, x, y) <==> !Fits(r, x + y)
    ensures (!r.signed || y > 0 ==> Fits(r, Max(r) - y)) && (r.signed && y < 0 ==> Fits(r, Min(r) - y))
  {
  }

  lemma SubExactly(r: IntType, x: int, y: int)
    requires Fits(r, x) && Fits(r, y)
    ensures WillOverflowSub(r, x, y) <==> !Fits(r, x - y)
    ensures (r.signed && y < 0 ==> Fits(r, Max(r) + y)) && (r.signed && y > 0 ==> Fits(r, Min(r) + y))
  {
  }

  lemma MulUnsigned(r: IntType, x: int, y: int)
    requires Fits(r, x) && Fits(r, y) && !r.signed
    ensures WillOverflowMul(r, x, y) <==> !Fits(r, x * y)
  {
    if y > 0 {
      FactorBound(Max(r), y, x);
      ProductsGrow(0, x, y);
    }
  }

  lemma SignsOfProducts(x: int, y: int)
    ensures x * y == -x * -y == -(-x * y) == -(x * -y) == y * x
    ensures x >= 0 && y >= 0 ==> x * y >= 0
  {
  }

  lemma MulSigned(r: IntType, x: int, y: int)
    requires Fits(r, x) && Fits(r, y) && r.signed
    ensures WillOverflowMul(r, x, y) <==> !Fits(r, x * y)
  {
    SignsOfProducts(x, y);
    SignsOfProducts(-x, -y);
    SignsOfProducts(-x, y);
    SignsOfProducts(x, -y);
    if x > 0 && y > 0 {
      FactorBound(Max(r), y, x);
    } else if x > 0 && y < 0 {
      FactorBound(-Min(r), x, -y);
    } else if x < 0 && y > 0 {
      FactorBound(-Min(r), y, -x);
    } else if x < 0 && y < 0 {
      FactorBound(Max(r), -y, -x);
    }
  }

  /** A multiplication is refused exactly when its product leaves the result type. */
  lemma MulExactly(r: IntType, x: int, y: int)
    requires Fits(r, x) && Fits(r, y)
    ensures WillOverflowMul(r, x, y) <==> !Fits(r, x * y)
  {
    if r.signed {
      MulSigned(r, x, y);
    } else {
      MulUnsigned(r, x, y);
    }
  }

  lemma QuotientShrinks(x: nat, y: nat)
    requires y > 0
    ensures 0 <= x / y <= x && (y > 1 && x > 0 ==> x / y < x)
  {
    var q := x / y;
    assert q * y <= x;
    ProductsGrow(1, y, q);
    ProductsGrow(2, y, q);
    SignsOfProducts(q, y);
  }

  /** A truncating quotient fits unless it is that of the minimum by minus one. */
  lemma DivFits(r: IntType, x: int, y: int)
    requires Fits(r, x) && Fits(r, y) && y != 0
    ensures Fits(r, TruncDiv(x, y)) <==> !(r.signed && x == Min(r) && y == -1)
  {
    var m, n := if x >= 0 then x else -x, if y >= 0 then y else -y;
    QuotientShrinks(m, n);
  }

  /** A division is refused exactly for a zero divisor or a quotient that leaves the result type. */
  lemma DivExactly(r: IntType, x: int, y: int)
    requires Fits(r, x) && Fits(r, y)
    ensures WillOverflowDiv(r, x, y) <==> y == 0 || !Fits(r, TruncDiv(x, y))
  {
    if y != 0 {
      DivFits(r, x, y);
    }
  }

  /** The quotients that the multiplication check computes fit the result type themselves. */
  lemma MulChecksFit(r: IntType, x: int, y: int)
    requires Fits(r, x) && Fits(r, y) && y != 0
    ensures Fits(r, TruncDiv(Max(r), y))
    ensures x > 0 ==> Fits(r, TruncDiv(Min(r), x))
    ensures y > 0 ==> Fits(r, TruncDiv(Min(r), y))
  {
    hide Pow2;
    DivFits(r, Max(r), y);
    if x > 0 {
      DivFits(r, Min(r), x);
    }
    if y > 0 {
      DivFits(r, Min(r), y);
    }
  }

  // ------------------------------------------------------------ main result

  /** The outcome of a safe operation whose exact result is `x`, if there is one. */
  function Exact(r: IntType, x: int): Option<int> {
    if InRange(r, x) then Some(x) else None
  }

  /**
   For every admitted pair of types and all their values, each operation gives the
   exact result in the type in which they meet, or none.
   */
  lemma SafeOperationsAreExact(a: IntType, b: IntType, x: int, y: int)
    requires SafePair(a, b) && InRange(a, x) && InRange(b, y)
    ensures var r := ResultType(a, b);
      && SafeAdd(a, b, x, y) == Exact(r, x + y)
      && SafeSub(a, b, x, y) == Exact(r, x - y)
      && SafeMul(a, b, x, y) == Exact(r, x * y)
      && (y == 0 ==> SafeDiv(a, b, x, y) == None)
      && (y != 0 ==> exists q :: IsQuotient(q, x, y) && SafeDiv(a, b, x, y) == Exact(r, q))
  {
    hide WillOverflowAdd, WillOverflowSub, WillOverflowMul, WillOverflowDiv, TruncDiv, ResultType, IsQuotient, Fits,
      InRange;
    FitsExactly(a, x);
    FitsExactly(b, y);
    var r := ResultType(a, b);
    ConversionIsLossless(a, b, x, y);
    AddExactly(r, x, y);
    SubExactly(r, x, y);
    MulExactly(r, x, y);
    DivExactly(r, x, y);
    FitsExactly(r, x + y);
    FitsExactly(r, x - y);
    FitsExactly(r, x * y);
    if y != 0 {
      TruncDivIsQuotient(x, y);
      FitsExactly(r, TruncDiv(x, y));
    }
  }
}
