/** `format_g` of dev/gen_float128_vectors.py: exact decimal printing in the %g style (section 7.21.6.1 of C11). */
module DecimalFormat {
  import opened Powers
  import opened Text

  // ---- What a decimal numeral means ----

  function Zeros(n: nat): string { if n == 0 then "" else Zeros(n - 1) + "0" }

  /** Digits with an optional point. */
  ghost predicate IsPlain(s: string) {
    var dot := Find(s, '.');
    AllDigits(s[..dot]) && dot != 0 && (dot < |s| ==> AllDigits(s[dot + 1..]) && dot + 1 < |s|)
  }

  ghost function PlainValue(s: string): real
    requires IsPlain(s)
  {
    var dot := Find(s, '.');
    if dot == |s| then Number(s[..dot]) as real
    else
      var frac := s[dot + 1..];
      DigitsConcat(s[..dot], frac);
      Number(s[..dot] + frac) as real * Pow(Ten, -|frac|)
  }

  /** A sign and at least two digits. */
  ghost predicate IsExponent(s: string) {
    |s| >= 3 && (s[0] == '+' || s[0] == '-') && AllDigits(s[1..])
  }

  ghost function ExponentValue(s: string): int
    requires IsExponent(s)
  {
    if s[0] == '-' then -(Number(s[1..]) as int) else Number(s[1..])
  }

  ghost predicate IsUnsigned(s: string) {
    var e := Find(s, 'e');
    IsPlain(s[..e]) && (e < |s| ==> IsExponent(s[e + 1..]))
  }

  ghost function UnsignedValue(s: string): real
    requires IsUnsigned(s)
  {
    var e := Find(s, 'e');
    if e == |s| then PlainValue(s[..e]) else PlainValue(s[..e]) * Pow(Ten, ExponentValue(s[e + 1..]))
  }

  ghost predicate IsNumeral(s: string) {
    if s != "" && s[0] == '-' then IsUnsigned(s[1..]) else IsUnsigned(s)
  }

  ghost function NumeralValue(s: string): real
    requires IsNumeral(s)
  {
    if s != "" && s[0] == '-' then -UnsignedValue(s[1..]) else UnsignedValue(s)
  }

  ghost predicate HasExponent(s: string) { 'e' in s }

  // ---- Numerals without anything superfluous ----

  /** No leading zero but the one before the point, and no trailing zero behind it. */
  ghost predicate IsShort(s: string) {
    IsPlain(s) && (Find(s, '.') == 1 || s[0] != '0') && (Find(s, '.') < |s| ==> s[|s| - 1] != '0')
  }

  /** Two digits, or more without a leading zero; zero is positive. */
  ghost predicate IsShortExponent(s: string) {
    IsExponent(s) && (|s| == 3 || s[1] != '0') && (s[0] == '-' ==> Number(s[1..]) != 0)
  }

  /** With an exponent there is one digit before the point, and it is not zero. */
  ghost predicate IsShortUnsigned(s: string) {
    var e := Find(s, 'e');
    IsShort(s[..e]) && (e < |s| ==> IsShortExponent(s[e + 1..]) && Find(s[..e], '.') == 1 && s[0] != '0')
  }

  ghost predicate IsShortNumeral(s: string) {
    if s != "" && s[0] == '-' then IsShortUnsigned(s[1..]) else IsShortUnsigned(s)
  }

  // ---- Digit strings ----

  lemma DigitsConcat(a: string, b: string)
    requires AllDigits(a) && AllDigits(b)
    ensures AllDigits(a + b)
  {
  }

  lemma {:induction false} NumberConcat(a: string, b: string)
    requires AllDigits(a) && AllDigits(b)
    ensures AllDigits(a + b) && Number(a + b) == Number(a) * IntPow(Ten, |b|) + Number(b)
    decreases |b|
  {
    if b == "" {
      assert a + b == a;
    } else {
      var c := b[..|b| - 1];
      NumberConcat(a, c);
      assert (a + b)[..|a + b| - 1] == a + c;
      var d := DigitValue(b[|b| - 1]);
      assert Number(b) == Number(c) * 10 + d && Number(a + b) == Number(a + c) * 10 + d;
      assert IntPow(Ten, |b|) == 10 * IntPow(Ten, |c|);
      hide IntPow, Number, AllDigits;
      TimesTen(Number(a), IntPow(Ten, |c|), Number(c));
    }
  }

  lemma TimesTen(x: nat, y: nat, z: nat)
    ensures (x * y + z) * 10 == x * (10 * y) + z * 10
  {
  }

  lemma {:induction false} ZerosAreZero(n: nat)
    ensures |Zeros(n)| == n && AllDigits(Zeros(n)) && Number(Zeros(n)) == 0
  {
    if n > 0 {
      ZerosAreZero(n - 1);
      assert Zeros(n)[..n - 1] == Zeros(n - 1);
    }
  }

  /** `rstrip("0")`. */
  function StripZeros(s: string): string {
    if s != "" && s[|s| - 1] == '0' then StripZeros(s[..|s| - 1]) else s
  }

  lemma {:induction false} StripZerosBack(s: string)
    ensures |StripZeros(s)| <= |s|
    ensures s == StripZeros(s) + Zeros(|s| - |StripZeros(s)|)
  {
    if s != "" && s[|s| - 1] == '0' {
      StripZerosBack(s[..|s| - 1]);
      assert s == s[..|s| - 1] + "0";
    }
  }

  /** What remains of a number without its trailing zeros. */
  lemma StripZerosNumber(s: string)
    requires AllDigits(s) && s != "" && s[0] != '0'
    ensures var t := StripZeros(s);
      && AllDigits(t) && t != "" && t[0] == s[0] && |t| <= |s|
      && Number(s) == Number(t) * IntPow(Ten, |s| - |t|)
  {
    var t := StripZeros(s);
    StripZerosBack(s);
    ZerosAreZero(|s| - |t|);
    if t == "" {
      FirstZero(|s|);
    }
    assert forall c :: c in t ==> c in s;
    NumberConcat(t, Zeros(|s| - |t|));
  }

  lemma {:induction false} FirstZero(n: nat)
    requires n > 0
    ensures Zeros(n) != "" && Zeros(n)[0] == '0'
  {
    if n > 1 {
      FirstZero(n - 1);
    }
  }

  lemma {:induction false} DecimalLength(n: nat, k: nat)
    ensures |Decimal(n)| <= k + 1 <==> n < IntPow(Ten, k + 1)
    decreases k
  {
    PowOfNat(Ten, k);
    if k == 0 {
      assert IntPow(Ten, 1) == 10 * IntPow(Ten, 0);
    } else {
      assert IntPow(Ten, k + 1) == 10 * IntPow(Ten, k);
      if n >= 10 {
        DecimalLength(n / 10, k - 1);
      }
    }
  }

  // ---- The layout ----

  /** `{e10:+03d}`. */
  function ExponentText(e: int): string {
    var k := if e < 0 then -e else e;
    (if e < 0 then "-" else "+") + (if k < 10 then "0" else "") + Decimal(k)
  }

  /** The last lines of `format_g`: where the point goes, and whether there is an exponent. */
  function Layout(text: string, e10: int, significant: nat): string
    requires text != ""
  {
    if e10 < -4 || e10 >= significant then
      text[..1] + (if |text| > 1 then "." + text[1..] else "") + "e" + ExponentText(e10)
    else if e10 < 0 then "0." + Zeros(-e10 - 1) + text
    else if e10 + 1 >= |text| then text + Zeros(e10 + 1 - |text|)
    else text[..e10 + 1] + "." + text[e10 + 1..]
  }

  lemma DigitsAreNotMarks(s: string)
    requires AllDigits(s)
    ensures forall k :: 0 <= k < |s| ==> s[k] != '.' && s[k] != 'e' && s[k] != '-' && s[k] != '+'
  {
    forall k | 0 <= k < |s| ensures s[k] != '.' && s[k] != 'e' && s[k] != '-' && s[k] != '+' {
      assert s[k] in s;
    }
  }

  lemma PlainInteger(a: string)
    requires AllDigits(a) && a != ""
    ensures IsPlain(a) && PlainValue(a) == Number(a) as real
    ensures 'e' !in a && a[0] != '-'
  {
    DigitsAreNotMarks(a);
    FindAt(a, '.', |a|);
    assert a[..|a|] == a;
  }

  lemma SplitAtPoint(a: string, b: string)
    requires AllDigits(a) && AllDigits(b)
    ensures var s := a + "." + b; Find(s, '.') == |a| && s[..|a|] == a && s[|a| + 1..] == b
    ensures 'e' !in a + "." + b
  {
    var s := a + "." + b;
    DigitsAreNotMarks(a);
    DigitsAreNotMarks(b);
    FindAt(s, '.', |a|);
  }

  lemma PlainFraction(a: string, b: string)
    requires AllDigits(a) && AllDigits(b) && a != "" && b != ""
    ensures IsPlain(a + "." + b) && AllDigits(a + b)
    ensures PlainValue(a + "." + b) == Number(a + b) as real * Pow(Ten, -|b|)
    ensures 'e' !in a + "." + b && (a + "." + b)[0] != '-'
  {
    hide Pow, Number, Find, AllDigits;
    var s := a + "." + b;
    SplitAtPoint(a, b);
    DigitsConcat(a, b);
    assert |s| == |a| + 1 + |b| && s[0] == a[0];
    FirstIsDigit(a);
  }

  lemma FirstIsDigit(a: string)
    requires AllDigits(a) && a != ""
    ensures a[0] != '-'
  {
    assert a[0] in a;
  }

  lemma ExponentTextMeans(e: int)
    ensures IsExponent(ExponentText(e)) && ExponentValue(ExponentText(e)) == e
  {
    var k := if e < 0 then -e else e;
    NumberOfDecimal(k);
    var digits := (if k < 10 then "0" else "") + Decimal(k);
    assert ExponentText(e)[1..] == digits;
    if k < 10 {
      assert |Decimal(k)| == 1 && digits[..1] == "0" && AllDigits("0");
      NumberConcat("0", Decimal(k));
      assert "0"[..0] == "";
      assert Number("0") == 0;
    }
  }

  lemma WithoutExponent(p: string)
    requires IsPlain(p) && 'e' !in p && p != "" && p[0] != '-'
    ensures IsNumeral(p) && NumeralValue(p) == PlainValue(p)
    ensures IsUnsigned(p) && UnsignedValue(p) == PlainValue(p)
  {
    FindAt(p, 'e', |p|);
    assert p[..|p|] == p;
  }

  lemma WithExponent(p: string, e: int)
    requires IsPlain(p) && 'e' !in p
    ensures var s := p + "e" + ExponentText(e);
      IsUnsigned(s) && UnsignedValue(s) == PlainValue(p) * Pow(Ten, e)
  {
    hide Pow, ExponentText, IsPlain, PlainValue;
    var s := p + "e" + ExponentText(e);
    assert forall k :: 0 <= k < |p| ==> s[k] == p[k] && p[k] in p;
    FindAt(s, 'e', |p|);
    ExponentTextMeans(e);
    assert s[..|p|] == p && s[|p| + 1..] == ExponentText(e);
  }

  /** The number the digits `text` stand for when the first of them has the weight 10^e10. */
  ghost function DigitsValue(text: string, e10: int): real
    requires AllDigits(text)
  {
    Number(text) as real * Pow(Ten, e10 - |text| + 1)
  }

  lemma ProductOfPowers(n: real, a: int, b: int, c: int)
    requires c == a + b
    ensures n * Pow(Ten, a) * Pow(Ten, b) == n * Pow(Ten, c)
  {
    hide Pow;
    PowSum(Ten, a, b);
    Associate(n, Pow(Ten, a), Pow(Ten, b));
  }

  lemma Associate(x: real, y: real, z: real)
    ensures x * y * z == x * (y * z)
  {
  }

  lemma ScientificMeans(text: string, e10: int)
    requires AllDigits(text) && text != ""
    ensures var s := text[..1] + (if |text| > 1 then "." + text[1..] else "") + "e" + ExponentText(e10);
      && IsUnsigned(s) && UnsignedValue(s) == DigitsValue(text, e10)
      && s[0] != '-' && 'e' in s
  {
    hide Pow, Number, ExponentText, IsPlain, PlainValue, IsUnsigned, UnsignedValue;
    var body := text[..1] + (if |text| > 1 then "." + text[1..] else "");
    assert text[0] in text;
    var s := body + "e" + ExponentText(e10);
    if |text| > 1 {
      assert text == text[..1] + text[1..];
      assert body == text[..1] + "." + text[1..];
      PlainFraction(text[..1], text[1..]);
      ProductOfPowers(Number(text) as real, -|text[1..]|, e10, e10 - |text| + 1);
    } else {
      assert body == text;
      PlainInteger(text);
    }
    WithExponent(body, e10);
    assert s[|body|] == 'e';
  }

  lemma LeadingZeros(text: string, n: nat)
    requires AllDigits(text)
    ensures AllDigits("0" + (Zeros(n) + text)) && Number("0" + (Zeros(n) + text)) == Number(text)
    ensures AllDigits(Zeros(n) + text) && AllDigits("0")
  {
    ZerosAreZero(n);
    NumberConcat(Zeros(n), text);
    assert "0"[..0] == "" && AllDigits("0");
    assert Number("0") == 0;
    NumberConcat("0", Zeros(n) + text);
  }

  lemma SmallMeans(text: string, e10: int)
    requires AllDigits(text) && text != "" && e10 < 0
    ensures var s := "0." + Zeros(-e10 - 1) + text;
      && IsNumeral(s) && IsUnsigned(s) && UnsignedValue(s) == DigitsValue(text, e10)
      && s[0] != '-' && 'e' !in s
  {
    hide Pow, Number, IsPlain, PlainValue, IsUnsigned, UnsignedValue;
    var b := Zeros(-e10 - 1) + text;
    LeadingZeros(text, -e10 - 1);
    ZerosAreZero(-e10 - 1);
    PlainFraction("0", b);
    assert "0." + Zeros(-e10 - 1) + text == "0" + "." + b;
    WithoutExponent("0" + "." + b);
  }

  lemma NatProduct(x: nat, y: nat)
    ensures (x * y) as real == x as real * y as real
  {
  }

  lemma LargeMeans(text: string, e10: int)
    requires AllDigits(text) && text != "" && e10 + 1 >= |text|
    ensures var s := text + Zeros(e10 + 1 - |text|);
      && IsUnsigned(s) && UnsignedValue(s) == DigitsValue(text, e10)
      && s[0] != '-' && 'e' !in s
  {
    hide Pow, Number, IntPow, IsPlain, PlainValue, IsUnsigned, UnsignedValue;
    var k := e10 + 1 - |text|;
    ZerosAreZero(k);
    NumberConcat(text, Zeros(k));
    PowOfNat(Ten, k);
    NatProduct(Number(text), IntPow(Ten, k));
    PlainInteger(text + Zeros(k));
    WithoutExponent(text + Zeros(k));
  }

  lemma MiddleMeans(text: string, e10: int)
    requires AllDigits(text) && 0 <= e10 && e10 + 1 < |text|
    ensures var s := text[..e10 + 1] + "." + text[e10 + 1..];
      && IsUnsigned(s) && UnsignedValue(s) == DigitsValue(text, e10)
      && s[0] != '-' && 'e' !in s
  {
    hide Pow, Number, IsPlain, PlainValue, IsUnsigned, UnsignedValue;
    var a, b := text[..e10 + 1], text[e10 + 1..];
    assert text == a + b;
    assert (forall c :: c in a ==> c in text) && (forall c :: c in b ==> c in text);
    PlainFraction(a, b);
    WithoutExponent(a + "." + b);
  }

  /** Every layout denotes the digits at their weight, and shows an exponent exactly in the %g cases. */
  lemma LayoutMeans(text: string, e10: int, significant: nat)
    requires AllDigits(text) && text != ""
    ensures var s := Layout(text, e10, significant);
      && s != "" && s[0] != '-' && IsUnsigned(s) && UnsignedValue(s) == DigitsValue(text, e10)
      && (HasExponent(s) <==> e10 < -4 || e10 >= significant)
  {
    hide Pow, Number, IsUnsigned, UnsignedValue, DigitsValue, ExponentText;
    if e10 < -4 || e10 >= significant {
      ScientificMeans(text, e10);
    } else if e10 < 0 {
      SmallMeans(text, e10);
    } else if e10 + 1 >= |text| {
      LargeMeans(text, e10);
    } else {
      MiddleMeans(text, e10);
    }
  }

  // ---- Nothing in a layout is superfluous ----

  lemma ExponentTextIsShort(e: int)
    ensures IsShortExponent(ExponentText(e))
  {
    var k := if e < 0 then -e else e;
    ExponentTextMeans(e);
    NumberOfDecimal(k);
    var digits := (if k < 10 then "0" else "") + Decimal(k);
    assert ExponentText(e)[1..] == digits;
    if k >= 10 {
      assert digits == Decimal(k) && ExponentText(e)[1] == digits[0];
    } else {
      assert |Decimal(k)| == 1;
    }
  }

  lemma ShortInteger(a: string)
    requires AllDigits(a) && a != "" && (a[0] != '0' || |a| == 1)
    ensures IsShort(a) && Find(a, '.') == |a| && Find(a, 'e') == |a|
  {
    PlainInteger(a);
    DigitsAreNotMarks(a);
    FindAt(a, '.', |a|);
    FindAt(a, 'e', |a|);
  }

  lemma ShortFraction(a: string, b: string)
    requires AllDigits(a) && AllDigits(b) && a != "" && b != "" && (a[0] != '0' || |a| == 1) && b[|b| - 1] != '0'
    ensures IsShort(a + "." + b) && Find(a + "." + b, '.') == |a| && Find(a + "." + b, 'e') == |a + "." + b|
  {
    hide Pow, Number, IsPlain;
    PlainFraction(a, b);
    SplitAtPoint(a, b);
    FindAt(a + "." + b, 'e', |a + "." + b|);
  }

  lemma ShortWithExponent(p: string, e: int)
    requires IsShort(p) && Find(p, 'e') == |p| && Find(p, '.') == 1 && p[0] != '0'
    ensures IsShortUnsigned(p + "e" + ExponentText(e))
  {
    hide ExponentText, IsShort, IsShortExponent;
    var s := p + "e" + ExponentText(e);
    assert forall k :: 0 <= k < |p| ==> s[k] == p[k] && p[k] != 'e';
    FindAt(s, 'e', |p|);
    ExponentTextIsShort(e);
    assert s[..|p|] == p && s[|p| + 1..] == ExponentText(e);
  }

  lemma ShortAlone(p: string)
    requires IsShort(p) && Find(p, 'e') == |p|
    ensures IsShortUnsigned(p)
  {
    assert p[..|p|] == p;
  }

  /** The layout of digits without zeros at either end. */
  lemma LayoutIsShort(text: string, e10: int, significant: nat)
    requires AllDigits(text) && text != "" && text[0] != '0' && text[|text| - 1] != '0'
    ensures IsShortUnsigned(Layout(text, e10, significant))
  {
    hide IsShort, IsShortUnsigned, ExponentText, Find;
    assert forall c :: (c in text[..1] || c in text[1..]) ==> c in text;
    if e10 < -4 || e10 >= significant {
      if |text| > 1 {
        ShortFraction(text[..1], text[1..]);
        assert text[..1] + ("." + text[1..]) == text[..1] + "." + text[1..];
        ShortWithExponent(text[..1] + "." + text[1..], e10);
      } else {
        ShortInteger(text);
        assert text[..1] + "" == text;
        ShortWithExponent(text, e10);
      }
    } else if e10 < 0 {
      var b := Zeros(-e10 - 1) + text;
      ZerosAreZero(-e10 - 1);
      ShortFraction("0", b);
      assert "0." + Zeros(-e10 - 1) + text == "0" + "." + b;
      ShortAlone("0" + "." + b);
    } else if e10 + 1 >= |text| {
      ZerosAreZero(e10 + 1 - |text|);
      var a := text + Zeros(e10 + 1 - |text|);
      ShortInteger(a);
      ShortAlone(a);
    } else {
      var a, b := text[..e10 + 1], text[e10 + 1..];
      assert (forall c :: c in a ==> c in text) && (forall c :: c in b ==> c in text);
      ShortFraction(a, b);
      ShortAlone(a + "." + b);
    }
  }

  lemma {:induction false} StrippedEnds(s: string)
    ensures StripZeros(s) != "" ==> StripZeros(s)[|StripZeros(s)| - 1] != '0'
  {
    if s != "" && s[|s| - 1] == '0' {
      StrippedEnds(s[..|s| - 1]);
    }
  }

  // ---- Rounding to significant digits ----

  /** The value in units of its last significant digit. */
  function ScaledTo(x: real, significant: nat, e10: int): real {
    x * Pow(Ten, significant - 1 - e10)
  }

  /** That many units, rounded half to even. */
  ghost function DecimalUnits(x: real, significant: nat): int
    requires x > 0.0
  {
    HalfEven(ScaledTo(x, significant, Binade(Ten, x)))
  }

  /** `x` rounded to so many significant decimal digits. */
  ghost function RoundedDecimal(x: real, significant: nat): real
    requires x > 0.0
  {
    DecimalUnits(x, significant) as real * Pow(Ten, Binade(Ten, x) - significant + 1)
  }

  lemma ScaledDecimal(x: real, significant: nat)
    requires x > 0.0 && significant >= 1
    ensures var e := Binade(Ten, x); var q := ScaledTo(x, significant, e);
      && q * Pow(Ten, e - significant + 1) == x
      && IntPow(Ten, significant - 1) as real <= q < IntPow(Ten, significant) as real
  {
    hide Pow, IntPow;
    var e := Binade(Ten, x);
    ScaleAndBack(x, significant - 1 - e, e - significant + 1);
    BinadePlace(Ten, x, e);
    Scaled(x, Pow(Ten, e), Pow(Ten, e + 1), Pow(Ten, significant - 1 - e), Pow(Ten, significant - 1), Pow(Ten, significant)) by {
      PowPositive(Ten, significant - 1 - e);
      PowSum(Ten, e, significant - 1 - e);
      PowSum(Ten, e + 1, significant - 1 - e);
    }
    PowOfNat(Ten, significant - 1);
    PowOfNat(Ten, significant);
  }

  lemma BinadePlace(b: Base, x: real, e: int)
    requires InBinade(b, x, e)
    ensures Pow(b, e) <= x < Pow(b, e + 1)
  {
  }

  lemma Scaled(x: real, lo: real, hi: real, up: real, lo': real, hi': real)
    requires up > 0.0 && lo <= x < hi && lo * up == lo' && hi * up == hi'
    ensures lo' <= x * up < hi'
  {
    MulMono(lo, x, up);
    MulMono(x, hi, up);
  }

  lemma ScaleAndBack(x: real, a: int, b: int)
    requires b == -a
    ensures x * Pow(Ten, a) * Pow(Ten, b) == x
  {
    hide Pow;
    PowSum(Ten, a, b);
    PowZero(Ten);
    assert Pow(Ten, a) * Pow(Ten, b) == Pow(Ten, 0);
    TimesInverse(x, Pow(Ten, a), Pow(Ten, b));
  }

  lemma TimesInverse(x: real, y: real, z: real)
    requires y * z == 1.0
    ensures x * y * z == x
  {
    assert x * y * z == x * (y * z);
  }

  lemma DecimalUnitsRange(x: real, significant: nat)
    requires x > 0.0 && significant >= 1
    ensures IntPow(Ten, significant - 1) <= DecimalUnits(x, significant) <= IntPow(Ten, significant)
    ensures IntPow(Ten, significant - 1) >= 1
  {
    hide Pow, IntPow;
    ScaledDecimal(x, significant);
    PowOfNat(Ten, significant - 1);
    hide ScaledTo;
    HalfEvenBounds(ScaledTo(x, significant, Binade(Ten, x)), IntPow(Ten, significant - 1), IntPow(Ten, significant));
  }

  /** No decimal of so many digits, of any exponent, is closer to `x`; a tie goes to an even last digit. */
  lemma NearestDecimal(x: real, significant: nat, k: int, e: int, y: real)
    requires x > 0.0 && significant >= 1
    requires -(IntPow(Ten, significant) as int) < k < IntPow(Ten, significant)
    requires y == k as real * Pow(Ten, e - significant + 1)
    ensures var r := RoundedDecimal(x, significant);
      && Abs(r - x) <= Abs(y - x)
      && (Abs(r - x) == Abs(y - x) && y != r ==> DecimalUnits(x, significant) % 2 == 0)
  {
    hide Pow, IntPow, RoundedDecimal, DecimalUnits;
    var g := Binade(Ten, x);
    if k < 0 {
      NegativeDecimal(x, significant, k, Pow(Ten, e - significant + 1), y) by { PowPositive(Ten, e - significant + 1); }
    } else if e >= g {
      var j := CoarserDecimal(e - significant + 1, g - significant + 1, k);
      NearestDecimalOnGrid(x, significant, j, y);
    } else {
      var z := IntPow(Ten, significant - 1) as real * Pow(Ten, g - significant + 1);
      FinerDecimal(x, significant, k, e, y);
      NearestDecimalOnGrid(x, significant, IntPow(Ten, significant - 1), z);
      hide Abs;
      FartherBelow(RoundedDecimal(x, significant), x, y, z);
    }
  }

  lemma NegativeDecimal(x: real, significant: nat, k: int, u: real, y: real)
    requires x > 0.0 && significant >= 1 && k < 0 && u > 0.0 && y == k as real * u
    ensures Abs(RoundedDecimal(x, significant) - x) < Abs(y - x)
  {
    hide Pow, IntPow, RoundedDecimal, DecimalUnits;
    MulMono(k as real, 0.0, u);
    var zero := 0 as real * Pow(Ten, Binade(Ten, x) - significant + 1);
    assert zero == 0.0;
    NearestDecimalOnGrid(x, significant, 0, 0.0);
    FartherBelow(RoundedDecimal(x, significant), x, y, 0.0);
  }

  lemma NearestDecimalOnGrid(x: real, significant: nat, k: int, y: real)
    requires x > 0.0 && significant >= 1
    requires y == k as real * Pow(Ten, Binade(Ten, x) - significant + 1)
    ensures var r := RoundedDecimal(x, significant);
      && Abs(r - x) <= Abs(y - x)
      && (Abs(r - x) == Abs(y - x) && y != r ==> DecimalUnits(x, significant) % 2 == 0)
  {
    hide Pow, IntPow, HalfEven, ScaledTo;
    var e := Binade(Ten, x);
    var u, q := Pow(Ten, e - significant + 1), ScaledTo(x, significant, e);
    PowPositive(Ten, e - significant + 1);
    ScaledDecimal(x, significant);
    NearestMultiple(u, q, DecimalUnits(x, significant), k, x, RoundedDecimal(x, significant), y);
  }

  lemma {:induction false} CoarserDecimal(a: int, b: int, k: int) returns (j: int)
    requires b <= a
    ensures k as real * Pow(Ten, a) == j as real * Pow(Ten, b)
    decreases a - b
  {
    hide Pow;
    if b < a {
      PowStep(Ten, a - 1);
      TenTimes(k, Pow(Ten, a - 1));
      j := CoarserDecimal(a - 1, b, 10 * k);
    } else {
      j := k;
    }
  }

  lemma TenTimes(k: int, p: real)
    ensures k as real * (10.0 * p) == (10 * k) as real * p
  {
  }

  lemma FinerDecimal(x: real, significant: nat, k: int, e: int, y: real)
    requires x > 0.0 && significant >= 1 && 0 <= k < IntPow(Ten, significant) && e < Binade(Ten, x)
    requires y == k as real * Pow(Ten, e - significant + 1)
    ensures y < IntPow(Ten, significant - 1) as real * Pow(Ten, Binade(Ten, x) - significant + 1) <= x
  {
    hide Pow, IntPow;
    var g := Binade(Ten, x);
    PowPositive(Ten, e - significant + 1);
    MulMono(k as real, IntPow(Ten, significant) as real, Pow(Ten, e - significant + 1));
    WeightOfDigits(significant, e - significant + 1, e + 1);
    WeightOfDigits(significant - 1, g - significant + 1, g);
    PowIncreases(Ten, e + 1, g);
    BinadePlace(Ten, x, g);
  }

  /** The exponent after rounding: one more when the digits carry over. */
  ghost function RoundedExponent(x: real, significant: nat): int
    requires x > 0.0
  {
    if DecimalUnits(x, significant) >= IntPow(Ten, significant) then Binade(Ten, x) + 1 else Binade(Ten, x)
  }

  lemma RoundedExponentIsPlace(x: real, significant: nat)
    requires x > 0.0 && significant >= 1
    ensures InBinade(Ten, RoundedDecimal(x, significant), RoundedExponent(x, significant))
  {
    hide Pow, IntPow, DecimalUnits;
    var e, d := Binade(Ten, x), DecimalUnits(x, significant);
    DecimalUnitsRange(x, significant);
    WeightOfDigits(significant - 1, e - significant + 1, e);
    WeightOfDigits(significant, e - significant + 1, e + 1);
    PowPositive(Ten, e - significant + 1);
    PlaceOfUnits(d, IntPow(Ten, significant - 1), IntPow(Ten, significant), Pow(Ten, e - significant + 1),
                 Pow(Ten, e), Pow(Ten, e + 1));
    PowStep(Ten, e + 1);
    PowPositive(Ten, e + 1);
  }

  lemma WeightOfDigits(n: nat, a: int, b: int)
    requires b == n + a
    ensures IntPow(Ten, n) as real * Pow(Ten, a) == Pow(Ten, b)
  {
    hide Pow, IntPow;
    PowSum(Ten, n, a);
    PowOfNat(Ten, n);
  }

  lemma PlaceOfUnits(d: int, lo: int, hi: int, u: real, pLo: real, pHi: real)
    requires u > 0.0 && lo <= d <= hi && lo as real * u == pLo && hi as real * u == pHi
    ensures pLo <= d as real * u <= pHi
    ensures d < hi ==> d as real * u < pHi
    ensures d == hi ==> d as real * u == pHi
  {
    MulMono(lo as real, d as real, u);
    MulMono(d as real, hi as real, u);
  }

  // ---- The method ----

  /** The two loops that find the decimal exponent. */
  method DecimalExponent(x: real) returns (e10: int)
    requires x > 0.0
    ensures e10 == Binade(Ten, x)
  {
    hide Pow;
    var m := x;
    e10 := 0;
    while m >= 10.0
      invariant m > 0.0 && (x >= 1.0 ==> m >= 1.0)
      invariant forall e {:trigger InBinade(Ten, m, e)} :: InBinade(Ten, m, e) ==> InBinade(Ten, x, e + e10)
      decreases m.Floor
    {
      ghost var m0 := m;
      m := m / 10.0;
      e10 := e10 + 1;
      forall e | InBinade(Ten, m, e) ensures InBinade(Ten, x, e + e10) {
        BinadeShift(Ten, m, e);
        assert Times(Ten, m) == m0;
        assert InBinade(Ten, m0, e + 1);
      }
    }
    e10 := LowerExponent(x, m, e10);
  }

  method LowerExponent(x: real, m0: real, from: int) returns (e10: int)
    requires x > 0.0 && 0.0 < m0 < 10.0
    requires forall e {:trigger InBinade(Ten, m0, e)} :: InBinade(Ten, m0, e) ==> InBinade(Ten, x, e + from)
    ensures e10 == Binade(Ten, x)
  {
    hide Pow;
    var m := m0;
    e10 := from;
    while m < 1.0
      invariant 0.0 < m < 10.0
      invariant forall e {:trigger InBinade(Ten, m, e)} :: InBinade(Ten, m, e) ==> InBinade(Ten, x, e + e10)
      decreases (1.0 / m).Floor
    {
      InverseFloor10(m);
      ghost var m1 := m;
      m := m * 10.0;
      e10 := e10 - 1;
      forall e | InBinade(Ten, m, e) ensures InBinade(Ten, x, e + e10) {
        BinadeShift(Ten, m1, e - 1);
        assert Times(Ten, m1) == m;
        assert InBinade(Ten, m1, e - 1);
      }
    }
    PowZero(Ten);
    PowStep(Ten, 0);
    assert InBinade(Ten, m, 0);
    BinadeUnique(Ten, x, e10, Binade(Ten, x));
  }

  lemma InverseFloor10(m: real)
    requires 0.0 < m < 1.0
    ensures (1.0 / (m * 10.0)).Floor < (1.0 / m).Floor
    ensures 1.0 / m >= 0.0
  {
    var t := 1.0 / m;
    var u := 1.0 / (m * 10.0);
    assert t * m == 1.0 && u * (m * 10.0) == 1.0;
    assert (t - 10.0 * u) * m == 0.0;
    MulMono(t, 1.0, m);
  }

  /** `format_g`. A nonzero value is printed as a numeral for exactly the value rounded half to even to
      `significant` digits, with an exponent exactly when the rounded value calls for one, and with nothing
      superfluous. */
  method FormatG(v: real, significant: nat) returns (s: string)
    requires significant >= 1
    ensures v == 0.0 ==> s == "0"
    ensures v != 0.0 ==>
      && IsNumeral(s) && IsShortNumeral(s)
      && NumeralValue(s) == (if v < 0.0 then -RoundedDecimal(Abs(v), significant) else RoundedDecimal(Abs(v), significant))
      && (HasExponent(s) <==>
            RoundedExponent(Abs(v), significant) < -4 || RoundedExponent(Abs(v), significant) >= significant)
  {
    hide Pow, IntPow, ScaledTo, RoundedDecimal, IsUnsigned, UnsignedValue, DigitsValue, Layout, StripZeros, IsShortUnsigned;
    if v == 0.0 {
      return "0";
    }
    var out := if v < 0.0 then "-" else "";
    var e10 := DecimalExponent(Abs(v));
    var scaled := ScaledTo(Abs(v), significant, e10);
    var digits := scaled.Floor;
    var rem := scaled - digits as real;
    if rem > 0.5 || (rem == 0.5 && digits % 2 == 1) {
      digits := digits + 1;
    }
    DecimalUnitsRange(Abs(v), significant);
    assert digits == DecimalUnits(Abs(v), significant);
    var text := Decimal(digits);
    CutTextDigits(digits, significant);
    CutTextValue(Abs(v), significant, digits);
    if |text| > significant {
      text := text[..|text| - 1];
      e10 := e10 + 1;
    }
    StripKeepsValue(text, e10);
    var stripped := StripZeros(text);
    text := if stripped == "" then "0" else stripped;
    LayoutMeans(text, e10, significant);
    StrippedEnds(CutText(digits, significant));
    StrippedBegins(CutText(digits, significant));
    LayoutIsShort(text, e10, significant);
    var body := Layout(text, e10, significant);
    s := out + body;
    if v < 0.0 {
      assert s[0] == '-' && s[1..] == body;
    } else {
      assert s == body;
    }
  }

  /** The printed units, cut back to the wanted length after a carry. */
  function CutText(digits: nat, significant: nat): string {
    var text := Decimal(digits);
    if |text| > significant then text[..|text| - 1] else text
  }

  lemma CutTextDigits(digits: nat, significant: nat)
    requires significant >= 1 && IntPow(Ten, significant - 1) <= digits <= IntPow(Ten, significant)
    ensures AllDigits(CutText(digits, significant))
    ensures |CutText(digits, significant)| == significant && CutText(digits, significant)[0] != '0'
    ensures |Decimal(digits)| > significant <==> digits == IntPow(Ten, significant)
    ensures digits < IntPow(Ten, significant) ==> Number(CutText(digits, significant)) == digits
    ensures digits == IntPow(Ten, significant) ==> 10 * Number(CutText(digits, significant)) == digits
  {
    hide IntPow, Number, Decimal;
    DecimalLength(digits, significant - 1);
    PowOfNat(Ten, significant - 1);
    if digits == IntPow(Ten, significant) {
      CutCarry(digits, significant);
    } else {
      TextLength(digits, significant);
      NumberOfDecimal(digits);
    }
  }

  /** They stand for the rounded value. */
  lemma CutTextValue(x: real, significant: nat, digits: nat)
    requires x > 0.0 && significant >= 1 && digits == DecimalUnits(x, significant)
    ensures IntPow(Ten, significant - 1) <= digits <= IntPow(Ten, significant)
    ensures AllDigits(CutText(digits, significant))
    ensures DigitsValue(CutText(digits, significant), RoundedExponent(x, significant)) == RoundedDecimal(x, significant)
  {
    hide Pow, IntPow, DecimalUnits, Number, DigitsValue, CutText, RoundedDecimal;
    DecimalUnitsRange(x, significant);
    CutTextDigits(digits, significant);
    if digits == IntPow(Ten, significant) {
      CarryValue(CutText(digits, significant), Binade(Ten, x), significant, digits);
      RoundedDecimalIs(x, significant);
    } else {
      UnitsValue(CutText(digits, significant), x, significant);
    }
  }

  lemma RoundedDecimalIs(x: real, significant: nat)
    requires x > 0.0
    ensures RoundedDecimal(x, significant) == DecimalUnits(x, significant) as real * Pow(Ten, Binade(Ten, x) - significant + 1)
  {
    hide Pow, DecimalUnits;
  }

  lemma UnitsValue(text: string, x: real, significant: nat)
    requires x > 0.0 && AllDigits(text) && |text| == significant && Number(text) == DecimalUnits(x, significant)
    ensures DigitsValue(text, Binade(Ten, x)) == RoundedDecimal(x, significant)
  {
    hide Pow, DecimalUnits, Number;
  }

  lemma CarryValue(cut: string, e: int, significant: nat, digits: nat)
    requires AllDigits(cut) && |cut| == significant && 10 * Number(cut) == digits
    ensures DigitsValue(cut, e + 1) == digits as real * Pow(Ten, e - significant + 1)
  {
    hide Pow, Number;
    PowStep(Ten, e - significant + 1);
    TenTimes(Number(cut), Pow(Ten, e - significant + 1));
  }

  lemma CutCarry(digits: nat, significant: nat)
    requires significant >= 1 && digits == IntPow(Ten, significant)
    ensures var text := Decimal(digits); var cut := text[..|text| - 1];
      |cut| == significant && AllDigits(cut) && cut[0] != '0' && 10 * Number(cut) == digits
  {
    var text := Decimal(digits);
    PowOfNat(Ten, significant - 1);
    assert digits == 10 * IntPow(Ten, significant - 1);
    NumberOfDecimal(digits);
    NumberOfDecimal(digits / 10);
    assert text[..|text| - 1] == Decimal(digits / 10);
    TextLength(digits / 10, significant);
  }

  lemma TextLength(digits: nat, k: nat)
    requires k >= 1 && IntPow(Ten, k - 1) <= digits < IntPow(Ten, k)
    ensures |Decimal(digits)| == k
  {
    hide IntPow;
    DecimalLength(digits, k - 1);
    if k >= 2 {
      DecimalLength(digits, k - 2);
    }
  }

  lemma StripKeepsValue(text: string, e10: int)
    requires AllDigits(text) && text != "" && text[0] != '0'
    ensures AllDigits(StripZeros(text)) && StripZeros(text) != ""
    ensures DigitsValue(StripZeros(text), e10) == DigitsValue(text, e10)
  {
    hide Pow, IntPow, DigitsValue;
    StripZerosNumber(text);
    ShorterSameValue(text, StripZeros(text), e10);
  }

  lemma StrippedBegins(text: string)
    requires AllDigits(text) && text != "" && text[0] != '0'
    ensures StripZeros(text) != "" && StripZeros(text)[0] != '0'
  {
    StripZerosNumber(text);
  }

  lemma ShorterSameValue(text: string, t: string, e10: int)
    requires AllDigits(text) && AllDigits(t) && |t| <= |text|
    requires Number(text) == Number(t) * IntPow(Ten, |text| - |t|)
    ensures DigitsValue(t, e10) == DigitsValue(text, e10)
  {
    hide Pow, IntPow, Number;
    var k := |text| - |t|;
    PowOfNat(Ten, k);
    RegroupZeros(Number(text), Number(t), IntPow(Ten, k), k, e10 - |text| + 1, e10 - |t| + 1);
  }

  lemma RegroupZeros(whole: nat, part: nat, power: nat, k: nat, a: int, b: int)
    requires whole == part * power && Pow(Ten, k) == power as real && b == k + a
    ensures whole as real * Pow(Ten, a) == part as real * Pow(Ten, b)
  {
    hide Pow;
    NatProduct(part, power);
    ProductOfPowers(part as real, k, a, b);
  }
}
