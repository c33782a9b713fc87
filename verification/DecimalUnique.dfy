/** What `format_g` promises leaves it no choice (dev/gen_float128_vectors.py:222-251). */
module DecimalUnique {
  import opened Powers
  import opened Text
  import opened DecimalFormat

  // ---- Digit strings of the same number ----

  lemma {:induction false} NumberBelow(s: string)
    requires AllDigits(s)
    ensures Number(s) < IntPow(Ten, |s|)
  {
    if s != "" {
      LastDigit(s);
      NumberBelow(s[..|s| - 1]);
      assert IntPow(Ten, |s|) == 10 * IntPow(Ten, |s| - 1);
    }
  }

  lemma {:induction false} NumberFrom(s: string)
    requires AllDigits(s) && s != "" && s[0] != '0'
    ensures Number(s) >= IntPow(Ten, |s| - 1)
  {
    LastDigit(s);
    if |s| > 1 {
      NumberFrom(s[..|s| - 1]);
      assert IntPow(Ten, |s| - 1) == 10 * IntPow(Ten, |s| - 2);
    } else {
      ZeroDigit(s[0]);
    }
  }

  lemma {:induction false} NumberInjective(a: string, b: string)
    requires AllDigits(a) && AllDigits(b) && |a| == |b| && Number(a) == Number(b)
    ensures a == b
  {
    hide Number, AllDigits;
    if a != "" {
      var n := |a| - 1;
      LastDigit(a);
      LastDigit(b);
      NumberInjective(a[..n], b[..n]);
      assert a == a[..n] + [a[n]] && b == b[..n] + [b[n]];
    }
  }

  lemma LastDigit(s: string)
    requires AllDigits(s) && s != ""
    ensures IsDigit(s[|s| - 1]) && AllDigits(s[..|s| - 1])
    ensures Number(s) == Number(s[..|s| - 1]) * 10 + DigitValue(s[|s| - 1])
    ensures Number(s) % 10 == DigitValue(s[|s| - 1]) && Number(s) / 10 == Number(s[..|s| - 1])
  {
    assert s[|s| - 1] in s;
    assert forall c :: c in s[..|s| - 1] ==> c in s;
    assert Number(s) == Number(s[..|s| - 1]) * 10 + DigitValue(s[|s| - 1]);
    hide Number, AllDigits;
    DigitBelowTen(s[|s| - 1]);
  }

  lemma DigitBelowTen(c: char)
    requires IsDigit(c)
    ensures DigitValue(c) < 10
  {
  }

  lemma {:induction false} IntPowGrows(m: nat, n: nat)
    requires m <= n
    ensures 1 <= IntPow(Ten, m) <= IntPow(Ten, n)
    decreases n
  {
    IntPowPositive(Ten, m);
    if m < n {
      IntPowGrows(m, n - 1);
    }
  }

  /** The shorter one of two texts without leading zeros is the smaller number. */
  lemma SameLength(a: string, b: string)
    requires AllDigits(a) && AllDigits(b) && Number(a) == Number(b)
    requires (|a| < |b| ==> b[0] != '0') && (|b| < |a| ==> a[0] != '0')
    ensures |a| == |b|
  {
    hide IntPow, Number;
    NumberBelow(a);
    NumberBelow(b);
    if |a| < |b| {
      NumberFrom(b);
      IntPowGrows(|a|, |b| - 1);
    } else if |b| < |a| {
      NumberFrom(a);
      IntPowGrows(|b|, |a| - 1);
    }
  }

  // ---- Digits around a point ----

  ghost predicate Parts(a: string, b: string) {
    && AllDigits(a) && AllDigits(b) && AllDigits(a + b)
    && a != "" && (|a| == 1 || a[0] != '0') && (b != "" ==> b[|b| - 1] != '0')
  }

  lemma PartsOf(p: string) returns (a: string, b: string)
    requires IsShort(p)
    ensures Parts(a, b) && p == a + (if b == "" then "" else "." + b)
    ensures PlainValue(p) == Number(a + b) as real * Pow(Ten, -|b|)
    ensures a == p[..Find(p, '.')]
  {
    hide Pow, Number, AllDigits;
    var dot := Find(p, '.');
    a := p[..dot];
    hide Find;
    if dot == |p| {
      b := "";
      assert a + b == p[..dot] == a && -|b| == 0 && p == a + "";
      NoDigits();
      PowZero(Ten);
      TimesOne(Number(a + b) as real, Pow(Ten, -|b|));
    } else {
      b := p[dot + 1..];
      DigitsConcat(a, b);
      AtPoint(p, dot);
    }
  }

  lemma AtPoint(p: string, dot: nat)
    requires dot < |p| && p[dot] == '.'
    ensures p == p[..dot] + ("." + p[dot + 1..]) && (p[dot + 1..] != "" ==> p[dot + 1..][|p[dot + 1..]| - 1] == p[|p| - 1])
  {
  }

  lemma NoDigits()
    ensures AllDigits("")
  {
  }

  lemma TimesOne(x: real, u: real)
    requires u == 1.0
    ensures x * u == x
  {
  }

  lemma ScaledUp(x: nat, y: nat, k: int, l: int)
    requires 0 <= k <= l && x as real * Pow(Ten, -k) == y as real * Pow(Ten, -l)
    ensures y == x * IntPow(Ten, l - k)
  {
    hide Pow, IntPow;
    PowSum(Ten, l, -l);
    PowSum(Ten, l, -k);
    PowZero(Ten);
    PowOfNat(Ten, l - k);
    Regroup(x as real, y as real, Pow(Ten, -k), Pow(Ten, -l), Pow(Ten, l), IntPow(Ten, l - k));
  }

  lemma Regroup(x: real, y: real, p: real, q: real, s: real, w: nat)
    requires x * p == y * q && s * q == 1.0 && s * p == w as real
    ensures y == x * w as real
  {
    assert s * (x * p) == s * (y * q);
    assert x * (s * p) == y * (s * q);
  }

  lemma TenDivides(x: nat, k: nat)
    requires k > 0
    ensures (x * IntPow(Ten, k)) % 10 == 0
  {
    var p, w := IntPow(Ten, k), IntPow(Ten, k - 1);
    assert p == 10 * w;
    hide IntPow;
    TenFold(x, w, p, x * w);
  }

  lemma TenFold(x: nat, w: nat, p: nat, xw: nat)
    requires p == 10 * w && xw == x * w
    ensures x * p == 10 * xw && (x * p) % 10 == 0
  {
    assert x * p == 10 * xw;
  }

  lemma SameFraction(a: string, b: string, c: string, d: string)
    requires Parts(a, b) && Parts(c, d) && Number(a + b) as real * Pow(Ten, -|b|) == Number(c + d) as real * Pow(Ten, -|d|)
    ensures |b| >= |d|
  {
    hide Pow, IntPow, Number, AllDigits;
    LastDigit(c + d);
    var last := (c + d)[|c + d| - 1];
    assert d != "" ==> last == d[|d| - 1];
    ZeroDigit(last);
    if |b| < |d| {
      ScaledUp(Number(a + b), Number(c + d), |b|, |d|);
      TenDivides(Number(a + b), |d| - |b|);
    }
  }

  lemma ZeroDigit(c: char)
    requires IsDigit(c)
    ensures DigitValue(c) == 0 <==> c == '0'
  {
  }

  lemma PartsUnique(a: string, b: string, c: string, d: string)
    requires Parts(a, b) && Parts(c, d) && Number(a + b) as real * Pow(Ten, -|b|) == Number(c + d) as real * Pow(Ten, -|d|)
    ensures a == c && b == d
  {
    hide Pow, IntPow, Number, AllDigits;
    SameFraction(a, b, c, d);
    SameFraction(c, d, a, b);
    ScaledUp(Number(a + b), Number(c + d), |b|, |d|);
    OneIsOne(Number(a + b));
    assert |a| < |c| ==> (c + d)[0] == c[0];
    assert |c| < |a| ==> (a + b)[0] == a[0];
    SameLength(a + b, c + d);
    NumberInjective(a + b, c + d);
    assert a == (a + b)[..|a|] && c == (c + d)[..|a|] && b == (a + b)[|a|..] && d == (c + d)[|a|..];
  }

  lemma OneIsOne(x: nat)
    ensures x * IntPow(Ten, 0) == x
  {
  }

  lemma ShortUnique(p: string, q: string)
    requires IsShort(p) && IsShort(q) && PlainValue(p) == PlainValue(q)
    ensures p == q
  {
    hide IsShort, PlainValue, Parts, Pow, Number;
    var a, b := PartsOf(p);
    var c, d := PartsOf(q);
    PartsUnique(a, b, c, d);
  }

  // ---- With an exponent ----

  lemma ExponentUnique(x: string, y: string)
    requires IsShortExponent(x) && IsShortExponent(y) && ExponentValue(x) == ExponentValue(y)
    ensures x == y
  {
    hide Number;
    SameLength(x[1..], y[1..]);
    NumberInjective(x[1..], y[1..]);
    assert x == [x[0]] + x[1..] && y == [y[0]] + y[1..];
  }

  /** One digit before the point, not zero: the number stands at the first place. */
  lemma AtFirstPlace(p: string)
    requires IsShort(p) && Find(p, '.') == 1 && p[0] != '0'
    ensures 1.0 <= PlainValue(p) < 10.0
  {
    hide IsShort, PlainValue, Pow, IntPow, Number, Find;
    var a, b := PartsOf(p);
    var n := Number(a + b);
    assert (a + b)[0] == p[0];
    NumberFrom(a + b);
    NumberBelow(a + b);
    PowOfNat(Ten, |b|);
    PowOfNat(Ten, |b| + 1);
    PowPositive(Ten, -|b|);
    PowSum(Ten, |b|, -|b|);
    PowSum(Ten, |b| + 1, -|b|);
    PowZero(Ten);
    PowStep(Ten, 0);
    MulMono(IntPow(Ten, |b|) as real, n as real, Pow(Ten, -|b|));
    MulMono(n as real, IntPow(Ten, |b| + 1) as real, Pow(Ten, -|b|));
  }

  lemma ExponentIsPlace(p: string, e: int, x: real)
    requires IsPlain(p) && IsShort(p) && Find(p, '.') == 1 && p[0] != '0' && x == PlainValue(p) * Pow(Ten, e)
    ensures InBinade(Ten, x, e)
  {
    hide IsShort, IsPlain, PlainValue, Pow, Find;
    AtFirstPlace(p);
    PowPositive(Ten, e);
    PowStep(Ten, e);
    var v, u := PlainValue(p), Pow(Ten, e);
    UpToNamed(1.0, v, u, u, x);
    LessNamed(v, 10.0, u, x, 10.0 * u);
  }

  lemma SameFactor(x: real, y: real, u: real)
    requires u > 0.0 && x * u == y * u
    ensures x == y
  {
    MulMono(x, y, u);
    MulMono(y, x, u);
  }

  lemma ScientificUnique(p: string, x: string, q: string, y: string)
    requires IsPlain(p) && IsShort(p) && Find(p, '.') == 1 && p[0] != '0' && IsExponent(x) && IsShortExponent(x)
    requires IsPlain(q) && IsShort(q) && Find(q, '.') == 1 && q[0] != '0' && IsExponent(y) && IsShortExponent(y)
    requires PlainValue(p) * Pow(Ten, ExponentValue(x)) == PlainValue(q) * Pow(Ten, ExponentValue(y))
    ensures p == q && x == y
  {
    hide IsPlain, IsExponent, IsShort, IsShortExponent, ExponentValue, PlainValue, Pow, Find;
    var v := PlainValue(p) * Pow(Ten, ExponentValue(x));
    ExponentIsPlace(p, ExponentValue(x), v);
    ExponentIsPlace(q, ExponentValue(y), v);
    BinadeUnique(Ten, v, ExponentValue(x), ExponentValue(y));
    ExponentUnique(x, y);
    PowPositive(Ten, ExponentValue(x));
    SameFactor(PlainValue(p), PlainValue(q), Pow(Ten, ExponentValue(x)));
    ShortUnique(p, q);
  }

  // ---- Whole numerals ----

  lemma UnsignedUnique(s: string, t: string)
    requires IsShortUnsigned(s) && IsShortUnsigned(t) && IsUnsigned(s) && IsUnsigned(t) && UnsignedValue(s) == UnsignedValue(t)
    requires Find(s, 'e') < |s| <==> Find(t, 'e') < |t|
    ensures s == t
  {
    hide IsShort, IsShortExponent, ExponentValue, PlainValue, IsPlain, IsExponent, Pow, IsShortUnsigned, IsUnsigned, UnsignedValue, Find;
    if Find(s, 'e') < |s| {
      var p, x := ScientificParts(s);
      var q, y := ScientificParts(t);
      ScientificUnique(p, x, q, y);
    } else {
      PlainPart(s);
      PlainPart(t);
      ShortUnique(s, t);
    }
  }

  lemma ScientificParts(s: string) returns (p: string, x: string)
    requires IsShortUnsigned(s) && IsUnsigned(s) && Find(s, 'e') < |s|
    ensures IsPlain(p) && IsShort(p) && Find(p, '.') == 1 && p[0] != '0' && IsExponent(x) && IsShortExponent(x)
    ensures s == p + "e" + x && UnsignedValue(s) == PlainValue(p) * Pow(Ten, ExponentValue(x))
  {
    hide IsShort, IsShortExponent, ExponentValue, PlainValue, IsPlain, IsExponent, Pow;
    var e := Find(s, 'e');
    p, x := s[..e], s[e + 1..];
    Cut(s, e);
    assert Find(p, '.') <= |p|;
  }

  lemma PlainPart(s: string)
    requires IsShortUnsigned(s) && IsUnsigned(s) && Find(s, 'e') == |s|
    ensures IsPlain(s) && IsShort(s) && UnsignedValue(s) == PlainValue(s)
  {
    hide IsShort, PlainValue, IsPlain, Pow;
    Cut(s, |s|);
  }

  lemma Cut(s: string, e: nat)
    requires e <= |s|
    ensures if e < |s| then s == s[..e] + [s[e]] + s[e + 1..] else s == s[..e]
  {
  }

  lemma UnsignedIsNotNegative(s: string)
    requires IsUnsigned(s)
    ensures UnsignedValue(s) >= 0.0
  {
    var e := Find(s, 'e');
    PlainIsNotNegative(s[..e]);
    hide IsPlain, PlainValue, Pow;
    if e < |s| {
      PowPositive(Ten, ExponentValue(s[e + 1..]));
      MulMono(0.0, PlainValue(s[..e]), Pow(Ten, ExponentValue(s[e + 1..])));
    }
  }

  lemma PlainIsNotNegative(s: string)
    requires IsPlain(s)
    ensures PlainValue(s) >= 0.0
  {
    hide Number, Pow;
    var dot := Find(s, '.');
    if dot < |s| {
      var frac := s[dot + 1..];
      DigitsConcat(s[..dot], frac);
      PowPositive(Ten, -|frac|);
      MulMono(0.0, Number(s[..dot] + frac) as real, Pow(Ten, -|frac|));
    }
  }

  lemma ExponentStands(s: string)
    ensures Find(s, 'e') < |s| <==> 'e' in s
  {
  }

  /** Numerals without anything superfluous that have the same value, and both an exponent or none, are the
      same text. */
  lemma ShortNumeralUnique(s: string, t: string)
    requires IsNumeral(s) && IsShortNumeral(s) && IsNumeral(t) && IsShortNumeral(t)
    requires NumeralValue(s) == NumeralValue(t) != 0.0 && (HasExponent(s) <==> HasExponent(t))
    ensures s == t
  {
    hide IsShortUnsigned, IsUnsigned, UnsignedValue;
    var minus, minus' := s != "" && s[0] == '-', t != "" && t[0] == '-';
    var u, u' := if minus then s[1..] else s, if minus' then t[1..] else t;
    UnsignedIsNotNegative(u);
    UnsignedIsNotNegative(u');
    assert minus == minus';
    assert minus ==> s == ['-'] + u && t == ['-'] + u';
    ExponentStands(u);
    ExponentStands(u');
    UnsignedUnique(u, u');
  }

  /** What `FormatG` promises of the text it prints for a value. */
  ghost predicate Prints(v: real, significant: nat, s: string)
    requires v != 0.0
  {
    && IsNumeral(s) && IsShortNumeral(s)
    && NumeralValue(s) == (if v < 0.0 then -RoundedDecimal(Abs(v), significant) else RoundedDecimal(Abs(v), significant))
    && (HasExponent(s) <==>
          RoundedExponent(Abs(v), significant) < -4 || RoundedExponent(Abs(v), significant) >= significant)
  }

  /** There is one such text. */
  lemma PrintedTextIsUnique(v: real, significant: nat, s: string, t: string)
    requires v != 0.0 && significant >= 1 && Prints(v, significant, s) && Prints(v, significant, t)
    ensures s == t
  {
    hide IsNumeral, IsShortNumeral, NumeralValue, HasExponent, RoundedDecimal, RoundedExponent, InBinade;
    RoundedExponentIsPlace(Abs(v), significant);
    PlaceIsPositive(RoundedDecimal(Abs(v), significant), RoundedExponent(Abs(v), significant));
    ShortNumeralUnique(s, t);
  }

  lemma PlaceIsPositive(x: real, e: int)
    requires InBinade(Ten, x, e)
    ensures x > 0.0
  {
    PowPositive(Ten, e);
  }

  /** How numerals are read. */
  lemma ReadsNumeral()
    ensures IsNumeral("-1.25e-07") && NumeralValue("-1.25e-07") == -1.25 * Pow(Ten, -7) && HasExponent("-1.25e-07")
  {
    hide Pow, IsUnsigned, UnsignedValue, IsPlain, PlainValue, ExponentText, Number;
    var s := "1.25" + "e" + ExponentText(-7);
    SevenBelow();
    assert "1" + "." + "25" == "1.25";
    PlainFraction("1", "25");
    assert "1" + "25" == "125" && -|"25"| == -2;
    assert UnsignedValue(s) == 1.25 * Pow(Ten, -7) by { WithExponent("1.25", -7); OneTwoFive(); }
    NegatedProduct(1.25, Pow(Ten, -7));
    WithExponent("1.25", -7);
    OneTwoFive();
    assert "-1.25e-07"[1..] == s;
  }

  lemma NegatedProduct(x: real, u: real)
    ensures -x * u == -(x * u)
  {
  }

  lemma SevenBelow()
    ensures ExponentText(-7) == "-07"
  {
    assert Decimal(7) == "7";
  }

  lemma OneTwoFive()
    ensures AllDigits("125") && Number("125") as real * Pow(Ten, -2) == 1.25
  {
    assert "125"[..2] == "12" && "12"[..1] == "1" && "1"[..0] == "";
    assert Number("1") == 1;
    assert Number("12") == 12;
    assert Number("125") == 125;
    assert Pow(Ten, -1) == 0.1;
    assert Pow(Ten, -2) == 0.01;
  }
}
