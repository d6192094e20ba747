/** The numbers that the parser takes, spelled out part by part. */
module JsonNumerals {
  import opened Json

  datatype Exponent = Exponent(mark: string, sign: string, digits: string)

  /** A sign, digits, a point with digits behind it, and an exponent; of the digits one side may be missing. */
  datatype Numeral = Numeral(minus: bool, whole: string, fraction: seq<string>, exponent: seq<Exponent>) {
    function Text(): string
      requires |fraction| <= 1 && |exponent| <= 1
    {
      (if minus then "-" else "") + whole + FractionText(fraction) + ExponentText(exponent)
    }

    predicate Valid() {
      && AllDigits(whole) && |fraction| <= 1 && ValidExponents(exponent)
      && (fraction != [] ==> AllDigits(fraction[0]))
      && (whole != "" || (minus && fraction != [] && fraction[0] != ""))
    }
  }

  function FractionText(fraction: seq<string>): string
    requires |fraction| <= 1
  {
    if fraction == [] then "" else "." + fraction[0]
  }

  function ExponentText(exponent: seq<Exponent>): string
    requires |exponent| <= 1
  {
    if exponent == [] then "" else exponent[0].mark + exponent[0].sign + exponent[0].digits
  }

  predicate ValidExponents(exponent: seq<Exponent>) {
    && |exponent| <= 1
    && (exponent != [] ==>
          && (exponent[0].mark == "e" || exponent[0].mark == "E")
          && (exponent[0].sign == "" || exponent[0].sign == "+" || exponent[0].sign == "-")
          && exponent[0].digits != "" && AllDigits(exponent[0].digits))
  }

  predicate AllDigits(s: string) {
    forall i :: 0 <= i < |s| ==> s[i] in {'0', '1', '2', '3', '4', '5', '6', '7', '8', '9'}
  }

  ghost predicate IsNumeral(s: string) {
    exists n: Numeral :: n.Valid() && n.Text() == s
  }

  lemma DigitIsOneOfTen(c: char)
    ensures IsDigit(c) <==> c in {'0', '1', '2', '3', '4', '5', '6', '7', '8', '9'}
  {
    if IsDigit(c) {
      assert c as int == 48 || c as int == 49 || c as int == 50 || c as int == 51 || c as int == 52
             || c as int == 53 || c as int == 54 || c as int == 55 || c as int == 56 || c as int == 57;
    }
  }

  lemma {:induction false} DigitsEnd(s: string, i: nat, j: nat)
    requires i <= j <= |s| && AllDigits(s[i..j]) && (j < |s| ==> !IsDigit(s[j]))
    ensures DigitsFrom(s, i) == j
    decreases j - i
  {
    if i < j {
      DigitIsOneOfTen(s[i]);
      assert s[i..j][0] == s[i];
      assert s[i..j][1..] == s[i + 1..j];
      DigitsEnd(s, i + 1, j);
    }
  }

  lemma {:induction false} DigitsAreDigits(s: string, i: nat)
    requires i <= |s|
    ensures AllDigits(s[i..DigitsFrom(s, i)])
    ensures DigitsFrom(s, i) < |s| ==> !IsDigit(s[DigitsFrom(s, i)])
    decreases |s| - i
  {
    if i < |s| && IsDigit(s[i]) {
      DigitIsOneOfTen(s[i]);
      DigitsAreDigits(s, i + 1);
      assert s[i..DigitsFrom(s, i)] == [s[i]] + s[i + 1..DigitsFrom(s, i + 1)];
    }
  }

  /** The tokens that count as numbers are the numerals. */
  lemma NumeralExactly(s: string)
    ensures IsNumber(s) <==> IsNumeral(s)
  {
    if IsNumber(s) {
      var n := NumeralOf(s);
    }
    if n: Numeral :| n.Valid() && n.Text() == s {
      NumeralIsNumber(n);
    }
  }

  lemma NumeralOf(s: string) returns (n: Numeral)
    requires IsNumber(s)
    ensures n.Valid() && n.Text() == s
  {
    var i := AfterSign(s);
    var j := DigitsFrom(s, i);
    var k := AfterFraction(s, j);
    DigitsAreDigits(s, i);
    assert j > i || k > j + 1;
    assert i == 0 ==> j > i by { assert IsDigit(s[0]) || s[0] == '-'; }
    var fraction := FractionOf(s, j);
    var exponent := ExponentOf(s, k);
    assert s[..i] == (if i == 1 then "-" else "");
    hide DigitsFrom, AfterFraction, AfterExponent, AfterSign, ExponentDigits, NumberEnd, IsDigit, AllDigits, IsNumber,
      ExponentText;
    n := Numeral(i == 1, s[i..j], fraction, exponent);
    InParts(s, i, j, k);
  }

  lemma InParts(s: string, i: nat, j: nat, k: nat)
    requires i <= j <= k <= |s|
    ensures s == s[..i] + s[i..j] + s[j..k] + s[k..]
  {
  }

  lemma FractionOf(s: string, j: nat) returns (fraction: seq<string>)
    requires j <= |s|
    ensures |fraction| <= 1 && FractionText(fraction) == s[j..AfterFraction(s, j)]
    ensures fraction != [] ==> AllDigits(fraction[0]) && AfterFraction(s, j) == j + 1 + |fraction[0]|
    ensures fraction == [] ==> AfterFraction(s, j) == j
  {
    fraction := [];
    if j < |s| && s[j] == '.' {
      DigitsAreDigits(s, j + 1);
      fraction := [s[j + 1..DigitsFrom(s, j + 1)]];
    }
  }

  lemma ExponentOf(s: string, k: nat) returns (exponent: seq<Exponent>)
    requires k <= |s|
    requires k < |s| ==> (s[k] == 'e' || s[k] == 'E') && DigitsFrom(s, ExponentDigits(s, k)) > ExponentDigits(s, k)
    requires AfterExponent(s, k) == |s|
    ensures ValidExponents(exponent) && ExponentText(exponent) == s[k..]
  {
    exponent := [];
    if k < |s| {
      var d := ExponentDigits(s, k);
      DigitsAreDigits(s, d);
      assert s[d..] == s[d..DigitsFrom(s, d)];
      hide DigitsFrom, AllDigits;
      exponent := [Exponent([s[k]], s[k + 1..d], s[d..])];
      assert s[k..] == [s[k]] + s[k + 1..d] + s[d..];
    }
  }

  lemma NumeralIsNumber(n: Numeral)
    requires n.Valid()
    ensures IsNumber(n.Text())
  {
    var s := n.Text();
    var i := if n.minus then 1 else 0;
    var j := i + |n.whole|;
    var k := j + |FractionText(n.fraction)|;
    InFour(s, if n.minus then "-" else "", n.whole, FractionText(n.fraction), ExponentText(n.exponent));
    if n.whole != "" {
      DigitIsOneOfTen(s[i]);
      assert s[i] == s[i..j][0];
    }
    hide AllDigits, DigitsFrom, FractionText, ExponentText, ExponentDigits;
    ExponentIsRead(s, k, n.exponent);
    FractionIsRead(s, j, k, n.fraction);
    DigitsEnd(s, i, j);
  }

  lemma InFour(s: string, a: string, b: string, c: string, d: string)
    requires s == a + b + c + d
    ensures s[..|a|] == a && s[|a|..|a| + |b|] == b
    ensures s[|a| + |b|..|a| + |b| + |c|] == c && s[|a| + |b| + |c|..] == d
  {
  }

  lemma DigitsToEnd(s: string, i: nat)
    requires i <= |s| && AllDigits(s[i..])
    ensures DigitsFrom(s, i) == |s|
  {
    assert s[i..|s|] == s[i..];
    DigitsEnd(s, i, |s|);
  }

  lemma ExponentIsRead(s: string, k: nat, exponent: seq<Exponent>)
    requires k <= |s| && ValidExponents(exponent) && s[k..] == ExponentText(exponent)
    ensures AfterExponent(s, k) == |s|
    ensures k < |s| ==> (s[k] == 'e' || s[k] == 'E') && DigitsFrom(s, ExponentDigits(s, k)) > ExponentDigits(s, k)
  {
    hide DigitsFrom, AllDigits, IsDigit;
    if exponent != [] {
      var e := exponent[0];
      var d := k + 1 + |e.sign|;
      InThree(s, k, e.mark, e.sign, e.digits);
      DigitsStart(e.digits);
      DigitsToEnd(s, d);
      assert ExponentDigits(s, k) == d;
    }
  }

  lemma DigitsStart(digits: string)
    requires AllDigits(digits) && digits != ""
    ensures digits[0] != '+' && digits[0] != '-'
  {
  }

  lemma InThree(s: string, k: nat, mark: string, sign: string, digits: string)
    requires k <= |s| && s[k..] == mark + sign + digits && |mark| == 1 && |sign| <= 1 && digits != ""
    ensures s[k] == mark[0] && s[k + 1 + |sign|..] == digits
    ensures sign != "" ==> s[k + 1] == sign[0]
    ensures sign == "" ==> s[k + 1] == digits[0]
  {
    var text := s[k..];
    assert text[0] == s[k] && text[1] == s[k + 1];
    assert text[1 + |sign|..] == digits;
  }

  lemma FractionIsRead(s: string, j: nat, k: nat, fraction: seq<string>)
    requires j <= k <= |s| && |fraction| <= 1 && s[j..k] == FractionText(fraction)
    requires fraction != [] ==> AllDigits(fraction[0])
    requires k < |s| ==> s[k] == 'e' || s[k] == 'E'
    ensures AfterFraction(s, j) == k && (j < |s| ==> !IsDigit(s[j]))
    ensures fraction != [] ==> k == j + 1 + |fraction[0]|
  {
    if fraction != [] {
      assert s[j..k][0] == s[j] && s[j..k][1..] == s[j + 1..k];
      DigitsEnd(s, j + 1, k);
    }
  }
}
