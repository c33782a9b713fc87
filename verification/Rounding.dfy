/** Exact rounding of rationals to a binary format (dev/gen_float128_vectors.py), for any format. */
module Rounding {
  import opened Powers

  /** A Python `Fraction`. */
  datatype Rational = Rational(num: int, den: int)

  type Fraction = q: Rational | q.den > 0 witness Rational(0, 1)

  function Value(q: Fraction): real { q.num as real / q.den as real }

  datatype Format = Format(mant: nat, minExp: int, maxExp: int, bias: int)

  const F128 := Format(112, -16382, 16383, 16383)
  const F64 := Format(52, -1022, 1023, 1023)
  const F32 := Format(23, -126, 127, 127)

  /** What the three formats have in common: biased exponent 1 is the smallest normal one. */
  predicate Valid(f: Format) { f.mant >= 1 && f.minExp <= f.maxExp && f.bias == 1 - f.minExp }

  /** A sign bit with the exponent and fraction fields, or the infinity of that sign. */
  datatype Rounded = Finite(sign: int, biased: int, frac: int) | Infinity(sign: int)

  // ---- The rounding as a function of the value ----

  function Sign(v: real): int { if v < 0.0 then 1 else 0 }

  /** The exponent whose grid the value is rounded on. */
  ghost function GridExponent(f: Format, x: real): int
    requires x > 0.0
  {
    if Binade(Two, x) < f.minExp then f.minExp else Binade(Two, x)
  }

  /** The distance of neighbours on the grid of exponent `e`. */
  function Ulp(f: Format, e: int): (u: real)
    ensures u > 0.0
  {
    PowPositive(Two, e - f.mant);
    Pow(Two, e - f.mant)
  }

  /** The fields for a value rounded to `whole` units of the grid of exponent `e`. */
  function Fields(f: Format, sign: int, e: int, whole: int): Rounded {
    var carry := whole >= IntPow(Two, f.mant + 1);
    var m := if carry then whole / 2 else whole;
    var e' := if carry then e + 1 else e;
    if e' > f.maxExp then Infinity(sign)
    else if m >= IntPow(Two, f.mant) then Finite(sign, e' + f.bias, m - IntPow(Two, f.mant))
    else Finite(sign, 0, m)
  }

  ghost function Units(f: Format, x: real): int
    requires x > 0.0
  {
    HalfEven(x / Ulp(f, GridExponent(f, x)))
  }

  ghost function Round(f: Format, v: real): Rounded
    requires v != 0.0
  {
    Fields(f, Sign(v), GridExponent(f, Abs(v)), Units(f, Abs(v)))
  }

  // ---- The method ----

  function BitLength(n: nat): nat { if n == 0 then 0 else 1 + BitLength(n / 2) }

  lemma {:induction false} BitLengthBounds(n: nat)
    requires n > 0
    ensures BitLength(n) >= 1
    ensures IntPow(Two, BitLength(n) - 1) <= n < IntPow(Two, BitLength(n))
  {
    if n == 1 {
      assert IntPow(Two, 0) == 1 && IntPow(Two, 1) == 2 * IntPow(Two, 0);
    } else {
      BitLengthBounds(n / 2);
      var k := BitLength(n / 2);
      assert BitLength(n) == k + 1;
      assert IntPow(Two, k) == 2 * IntPow(Two, k - 1);
      assert IntPow(Two, k + 1) == 2 * IntPow(Two, k);
      hide IntPow, BitLength;
    }
  }

  lemma BitLengthBinade(n: nat)
    requires n > 0
    ensures InBinade(Two, n as real, BitLength(n) - 1)
  {
    hide Pow;
    BitLengthBounds(n);
    PowOfNat(Two, BitLength(n) - 1);
    PowOfNat(Two, BitLength(n));
  }

  /** The quotient of two placed numbers. */
  lemma QuotientPlace(n: real, d: real, q: real, a: int, b: int)
    requires d > 0.0 && q * d == n
    requires Pow(Two, a - 1) <= n < Pow(Two, a) && Pow(Two, b - 1) <= d < Pow(Two, b)
    ensures Pow(Two, a - b - 1) < q < Pow(Two, a - b + 1)
  {
    hide Pow;
    QuotientBelow(n, d, q, a, b);
    QuotientAbove(n, d, q, a, b);
  }

  lemma QuotientBelow(n: real, d: real, q: real, a: int, b: int)
    requires d > 0.0 && q * d == n && n < Pow(Two, a) && Pow(Two, b - 1) <= d
    ensures q < Pow(Two, a - b + 1)
  {
    hide Pow;
    PowProduct(a - b + 1, b - 1, a);
    RatioBelow(n, d, q, Pow(Two, a - b + 1), Pow(Two, b - 1), Pow(Two, a));
  }

  lemma QuotientAbove(n: real, d: real, q: real, a: int, b: int)
    requires d > 0.0 && q * d == n && Pow(Two, a - 1) <= n && d < Pow(Two, b)
    ensures Pow(Two, a - b - 1) < q
  {
    hide Pow;
    PowProduct(a - b - 1, b, a - 1);
    RatioAbove(n, d, q, Pow(Two, a - b - 1), Pow(Two, b), Pow(Two, a - 1));
  }

  lemma RatioBelow(n: real, d: real, q: real, hi: real, dLo: real, nHi: real)
    requires d > 0.0 && hi > 0.0 && q * d == n && n < nHi && nHi == hi * dLo && dLo <= d
    ensures q < hi
  {
    var p := hi * d;
    Commuted(hi, dLo);
    Commuted(hi, d);
    UpToNamed(dLo, d, hi, nHi, p);
    CancelNamed(q, hi, d, n, p);
  }

  lemma RatioAbove(n: real, d: real, q: real, lo: real, dHi: real, nLo: real)
    requires d > 0.0 && lo > 0.0 && q * d == n && nLo <= n && nLo == lo * dHi && d < dHi
    ensures lo < q
  {
    var p := lo * d;
    Commuted(lo, dHi);
    Commuted(lo, d);
    LessNamed(d, dHi, lo, p, nLo);
    CancelNamed(lo, q, d, p, n);
  }

  lemma PowProduct(e: int, f: int, g: int)
    requires g == e + f
    ensures Pow(Two, g) == Pow(Two, e) * Pow(Two, f) && Pow(Two, e) > 0.0
  {
    PowSum(Two, e, f);
    PowPositive(Two, e);
  }

  /** The second loop: raise the exponent until the next power is too large. */
  method RaiseExponent(x: real, from: int, ghost cap: int) returns (e: int)
    requires Pow(Two, from) <= x < Pow(Two, cap)
    ensures InBinade(Two, x, e)
  {
    e := from;
    while Pow(Two, e + 1) <= x
      invariant Pow(Two, e) <= x
      decreases cap - e
    {
      if cap <= e + 1 { PowIncreases(Two, cap, e + 1); }
      e := e + 1;
    }
  }

  /** The first two loops: the guess from the bit lengths is right or one too large. */
  method FindExponent(num: nat, den: nat) returns (e: int)
    requires num > 0 && den > 0
    ensures num as real / den as real > 0.0
    ensures e == Binade(Two, num as real / den as real)
  {
    hide Pow, BitLength, InBinade;
    var x := num as real / den as real;
    PlaceOfQuotient(num, den, x);
    e := BitLength(num) - BitLength(den);
    ghost var guess: int := e;
    while Pow(Two, e) > x
      invariant guess - 1 <= e <= guess && x < Pow(Two, e + 1)
      invariant e == guess - 1 ==> Pow(Two, e) <= x
      decreases e - guess + 1
    {
      e := e - 1;
    }
    e := RaiseExponent(x, e, e + 1);
    BinadeUnique(Two, x, e, Binade(Two, x));
  }

  /** The bit lengths place the quotient between two powers. */
  lemma PlaceOfQuotient(num: nat, den: nat, x: real)
    requires num > 0 && den > 0 && x == num as real / den as real
    ensures x > 0.0
    ensures var guess := BitLength(num) - BitLength(den); Pow(Two, guess - 1) < x < Pow(Two, guess + 1)
  {
    hide Pow, BitLength;
    QuotientTimes(num as real, den as real, x);
    BitLengthBinade(num);
    BitLengthBinade(den);
    QuotientPlace(num as real, den as real, x, BitLength(num), BitLength(den));
    PowPositive(Two, BitLength(num) - BitLength(den) - 1);
  }

  lemma QuotientTimes(n: real, d: real, x: real)
    requires d > 0.0 && x == n / d
    ensures x * d == n
  {
  }

  method RoundToFormat(value: Fraction, f: Format) returns (r: Rounded)
    requires Valid(f) && value.num != 0
    ensures Value(value) != 0.0
    ensures r == Round(f, Value(value))
  {
    var sign, num := 0, value.num;
    if value.num < 0 {
      sign, num := 1, -value.num;
    }
    var x := num as real / value.den as real;
    ValueSign(value);
    var e := FindExponent(num, value.den);
    if e < f.minExp {
      e := f.minExp;
    }
    var scaled := x / Ulp(f, e);
    var whole := scaled.Floor;
    var rem := scaled - whole as real;
    if rem > 0.5 || (rem == 0.5 && whole % 2 == 1) {
      whole := whole + 1;
    }
    assert e == GridExponent(f, x) && whole == Units(f, x);
    if whole >= IntPow(Two, f.mant + 1) {
      whole := whole / 2;
      e := e + 1;
    }
    if e > f.maxExp {
      return Infinity(sign);
    }
    if whole >= IntPow(Two, f.mant) {
      return Finite(sign, e + f.bias, whole - IntPow(Two, f.mant));
    }
    return Finite(sign, 0, whole);
  }

  lemma ValueSign(q: Fraction)
    requires q.num != 0
    ensures Value(q) != 0.0 && (Value(q) < 0.0 <==> q.num < 0)
    ensures Abs(Value(q)) == (if q.num < 0 then -q.num else q.num) as real / q.den as real
  {
    var d, n := q.den as real, q.num as real;
    assert Value(q) * d == n;
    var y := (if q.num < 0 then -q.num else q.num) as real / d;
    assert y * d == if q.num < 0 then -n else n;
    Scaling(d, Value(q), 0.0);
    Scaling(d, Value(q), y);
    Scaling(d, -Value(q), y);
  }
}
