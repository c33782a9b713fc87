/** Bit patterns and the exact remainder of the generated table (dev/gen_float128_vectors.py). */
module FloatVectors {
  import opened Powers
  import opened Rounding
  import opened RoundingTheorems

  /** The exponent field of infinities and NaNs, one more than the largest finite one. */
  function Special(f: Format): int { f.maxExp + f.bias + 1 }

  /** How many values the exponent field has. */
  function ExpRange(f: Format): int { Special(f) + 1 }

  /** Sign, exponent and fraction fields side by side; the shifts and ors of the script are sums because
      the fields do not overlap. */
  function Pack(f: Format, sign: int, biased: int, frac: int): int {
    (sign * ExpRange(f) + biased) * IntPow(Two, f.mant) + frac
  }

  function Encode(f: Format, r: Rounded): int {
    match r
    case Finite(sign, biased, frac) => Pack(f, sign, biased, frac)
    case Infinity(sign) => Pack(f, sign, Special(f), 0)
  }

  /** `f128_bits`, `f64_bits`, `f32_bits`. */
  ghost function BitsOf(f: Format, v: real, negativeZero: bool): int {
    if v == 0.0 then (if negativeZero then Pack(f, 1, 0, 0) else 0) else Encode(f, Round(f, v))
  }

  function SignField(f: Format, bits: int): int
    requires Valid(f) && f.maxExp + f.bias >= 0
  {
    PowOfNat(Two, f.mant);
    bits / IntPow(Two, f.mant) / ExpRange(f)
  }

  function BiasedField(f: Format, bits: int): int
    requires Valid(f) && f.maxExp + f.bias >= 0
  {
    PowOfNat(Two, f.mant);
    bits / IntPow(Two, f.mant) % ExpRange(f)
  }

  function FracField(f: Format, bits: int): int
    requires Valid(f)
  {
    PowOfNat(Two, f.mant);
    bits % IntPow(Two, f.mant)
  }

  predicate IsPattern(f: Format, bits: int)
    requires Valid(f) && f.maxExp + f.bias >= 0
  {
    0 <= bits && SignField(f, bits) <= 1
  }

  /** `f128_value`, for patterns that are not special. */
  function ValueOf(f: Format, bits: int): real
    requires Valid(f)
  {
    var m := Magnitude(f, BiasedField(f, bits), FracField(f, bits));
    if SignField(f, bits) != 0 then -m else m
  }

  lemma PackOfFields(f: Format, bits: int)
    requires Valid(f) && IsPattern(f, bits)
    ensures Pack(f, SignField(f, bits), BiasedField(f, bits), FracField(f, bits)) == bits
    ensures 0 <= SignField(f, bits) <= 1
    ensures 0 <= BiasedField(f, bits) <= Special(f)
    ensures 0 <= FracField(f, bits) < IntPow(Two, f.mant)
  {
    PowOfNat(Two, f.mant);
    hide IntPow;
    DivideTwice(bits, IntPow(Two, f.mant), ExpRange(f));
  }

  lemma DivideTwice(bits: int, m: int, n: int)
    requires m >= 1 && n >= 1 && bits >= 0
    ensures (bits / m / n * n + bits / m % n) * m + bits % m == bits
    ensures bits / m / n >= 0 && 0 <= bits / m % n < n && 0 <= bits % m < m
  {
    var q := bits / m;
    assert q / n * n + q % n == q;
    assert q * m + bits % m == bits;
    NonNegativeQuotient(bits, m);
    NonNegativeQuotient(q, n);
  }

  lemma NonNegativeQuotient(a: int, b: int)
    requires a >= 0 && b >= 1
    ensures a / b >= 0
  {
  }

  // ---- Decoding and encoding again ----

  /** A normal number sits in the binade of its exponent, a subnormal one below the smallest. */
  lemma BinadeOfMagnitude(f: Format, m: int, e: int)
    requires Valid(f) && 0 < m < IntPow(Two, f.mant + 1) && f.minExp <= e
    requires e > f.minExp ==> m >= IntPow(Two, f.mant)
    ensures m as real * Ulp(f, e) > 0.0
    ensures GridExponent(f, m as real * Ulp(f, e)) == e
  {
    hide Pow, IntPow, Ulp;
    var x := m as real * Ulp(f, e);
    UlpSplit(f, e);
    MulMono(0.0, m as real, Ulp(f, e));
    MulMono(m as real, IntPow(Two, f.mant + 1) as real, Ulp(f, e));
    MulMono(IntPow(Two, f.mant) as real, m as real, Ulp(f, e));
    assert x < Pow(Two, e + 1);
    if m >= IntPow(Two, f.mant) {
      BinadeUnique(Two, x, Binade(Two, x), e);
    } else {
      BinadeNotAbove(x, e + 1);
    }
  }

  lemma BinadeNotAbove(x: real, e: int)
    requires x > 0.0 && x < Pow(Two, e)
    ensures Binade(Two, x) < e
  {
    hide Pow;
    if Binade(Two, x) >= e {
      PowIncreases(Two, e, Binade(Two, x));
    }
  }

  lemma WholeUnits(m: int, u: real, x: real)
    requires u > 0.0 && x == m as real * u
    ensures HalfEven(x / u) == m
  {
    assert x / u == m as real;
  }

  /** The significand and grid exponent that the fields stand for. */
  function Significand(f: Format, r: Rounded): int
    requires r.Finite?
  {
    if r.biased == 0 then r.frac else r.frac + IntPow(Two, f.mant)
  }

  function FieldExponent(f: Format, r: Rounded): int
    requires r.Finite?
  {
    if r.biased == 0 then f.minExp else r.biased - f.bias
  }

  lemma FieldsBack(f: Format, r: Rounded)
    requires Valid(f) && Canonical(f, r)
    ensures Fields(f, r.sign, FieldExponent(f, r), Significand(f, r)) == r
    ensures Magnitude(f, r.biased, r.frac) == Significand(f, r) as real * Ulp(f, FieldExponent(f, r))
    ensures 0 <= Significand(f, r) < IntPow(Two, f.mant + 1) && f.minExp <= FieldExponent(f, r)
    ensures FieldExponent(f, r) > f.minExp ==> Significand(f, r) >= IntPow(Two, f.mant)
  {
    hide Pow, IntPow, Ulp;
    SignificandSizes(f);
  }

  lemma UnitsOfMultiple(f: Format, m: int, e: int)
    requires Valid(f) && 0 < m < IntPow(Two, f.mant + 1) && f.minExp <= e
    requires e > f.minExp ==> m >= IntPow(Two, f.mant)
    ensures m as real * Ulp(f, e) > 0.0
    ensures GridExponent(f, m as real * Ulp(f, e)) == e && Units(f, m as real * Ulp(f, e)) == m
  {
    hide Pow, IntPow, Ulp, GridExponent, HalfEven;
    var x := m as real * Ulp(f, e);
    BinadeOfMagnitude(f, m, e);
    WholeUnits(m, Ulp(f, e), x);
  }

  /** Rounding a number given by fields gives these fields back. */
  lemma RoundOfFields(f: Format, r: Rounded)
    requires Valid(f) && Canonical(f, r) && Decode(f, r) != 0.0
    ensures Round(f, Decode(f, r)) == r
  {
    hide Pow, IntPow, Ulp, GridExponent, Units, Significand, FieldExponent, Fields, Magnitude;
    var m, e := Significand(f, r), FieldExponent(f, r);
    FieldsBack(f, r);
    MulMono(0.0, 1.0, Ulp(f, e));
    assert m == 0 ==> m as real * Ulp(f, e) == 0.0;
    UnitsOfMultiple(f, m, e);
    assert Abs(Decode(f, r)) == m as real * Ulp(f, e) && Sign(Decode(f, r)) == r.sign;
  }

  lemma ZeroMagnitude(f: Format, biased: int, frac: int)
    requires Valid(f) && 0 <= biased && 0 <= frac && Magnitude(f, biased, frac) == 0.0
    ensures biased == 0 && frac == 0
  {
    hide Pow, IntPow, Ulp;
    PowOfNat(Two, f.mant);
    var m := if biased == 0 then frac else frac + IntPow(Two, f.mant);
    MulMono(0.0, m as real, Ulp(f, if biased == 0 then f.minExp else biased - f.bias));
  }

  /** Encoding the value of a pattern, with its sign for zero, gives the pattern. */
  lemma BitsOfValue(f: Format, bits: int)
    requires Valid(f) && f.maxExp + f.bias >= 0 && IsPattern(f, bits) && BiasedField(f, bits) != Special(f)
    ensures BitsOf(f, ValueOf(f, bits), SignField(f, bits) != 0) == bits
  {
    hide Pow, IntPow, Ulp, Magnitude, SignField, BiasedField, FracField, Round;
    var r := Finite(SignField(f, bits), BiasedField(f, bits), FracField(f, bits));
    PackOfFields(f, bits);
    if ValueOf(f, bits) == 0.0 {
      ZeroMagnitude(f, r.biased, r.frac);
    } else {
      assert Decode(f, r) == ValueOf(f, bits);
      RoundOfFields(f, r);
    }
  }

  /** The second half of the overflow test of `f64_bits` and `f32_bits` never fires. */
  lemma FiniteIsNotSpecial(f: Format, v: real)
    requires Valid(f) && v != 0.0 && Round(f, v).Finite?
    ensures 0 <= Round(f, v).biased < Special(f) && 0 <= Round(f, v).frac < IntPow(Two, f.mant)
  {
    RoundIsFields(f, v);
  }

  /** The three encoders. */
  method Bits(value: Fraction, f: Format, negativeZero: bool) returns (bits: int)
    requires Valid(f)
    ensures bits == BitsOf(f, Value(value), negativeZero)
  {
    hide Pow, IntPow, Pack, Round;
    ZeroValue(value);
    if value.num == 0 {
      return if negativeZero then Pack(f, 1, 0, 0) else 0;
    }
    var r := RoundToFormat(value, f);
    if r.Finite? {
      FiniteIsNotSpecial(f, Value(value));
    }
    if r.Infinity? || r.biased >= Special(f) {
      return Pack(f, r.sign, Special(f), 0);
    }
    return Pack(f, r.sign, r.biased, r.frac);
  }

  lemma ZeroValue(q: Fraction)
    ensures Value(q) == 0.0 <==> q.num == 0
  {
    if q.num != 0 {
      ValueSign(q);
    }
  }

  /** What is too large is written as the infinity of its sign: exponent field all ones, fraction field zero. */
  lemma BitsOfInfinity(f: Format, v: real, negativeZero: bool)
    requires Valid(f) && f.maxExp + f.bias >= 0 && v != 0.0 && (v >= Threshold(f) || v <= -Threshold(f))
    ensures var bits := BitsOf(f, v, negativeZero);
      && IsPattern(f, bits) && BiasedField(f, bits) == f.maxExp + f.bias + 1 && FracField(f, bits) == 0
      && SignField(f, bits) == (if v < 0.0 then 1 else 0)
  {
    hide Pow, IntPow, Ulp, Round, Pack, SignField, BiasedField, FracField, Threshold;
    OverflowsExactlyFrom(f, v);
    PowOfNat(Two, f.mant);
    FieldsOfPack(f, Sign(v), Special(f), 0);
  }

  /** The fields of the three formats stand where the encoders put them. */
  lemma FormatsAre(sign: int, biased: int, frac: int)
    ensures Rounding.Valid(F128) && Rounding.Valid(F64) && Rounding.Valid(F32)
    ensures Special(F128) == 0x7fff && Special(F64) == 0x7ff && Special(F32) == 0xff
    ensures Pack(F128, sign, biased, frac) ==
      sign * 0x8000_0000_0000_0000_0000_0000_0000_0000 + biased * 0x1_0000_0000_0000_0000_0000_0000_0000 + frac
    ensures Pack(F64, sign, biased, frac) == sign * 0x8000_0000_0000_0000 + biased * 0x10_0000_0000_0000 + frac
    ensures Pack(F32, sign, biased, frac) == sign * 0x8000_0000 + biased * 0x80_0000 + frac
  {
    PowersOfTwo();
    hide IntPow;
  }

  lemma IntPowAdd(m: nat, n: nat)
    ensures IntPow(Two, m + n) == IntPow(Two, m) * IntPow(Two, n)
  {
    hide Pow, IntPow;
    PowSum(Two, m, n);
    PowOfNat(Two, m);
    PowOfNat(Two, n);
    PowOfNat(Two, m + n);
    RealProduct(IntPow(Two, m), IntPow(Two, n), IntPow(Two, m + n));
  }

  lemma RealProduct(a: nat, b: nat, c: nat)
    requires a as real * b as real == c as real
    ensures a * b == c
  {
  }

  lemma PowersMultiply(m: nat, n: nat, a: nat, b: nat, c: nat)
    requires IntPow(Two, m) == a && IntPow(Two, n) == b && a * b == c
    ensures IntPow(Two, m + n) == c
  {
    hide IntPow;
    IntPowAdd(m, n);
  }

  lemma SmallPowers()
    ensures IntPow(Two, 4) == 16 && IntPow(Two, 7) == 128
  {
    assert IntPow(Two, 1) == 2 && IntPow(Two, 2) == 4 && IntPow(Two, 3) == 8;
    assert IntPow(Two, 4) == 16 && IntPow(Two, 5) == 32 && IntPow(Two, 6) == 64;
  }

  lemma PowersOfTwo()
    ensures IntPow(Two, 23) == 0x80_0000 && IntPow(Two, 52) == 0x10_0000_0000_0000
    ensures IntPow(Two, 112) == 0x1_0000_0000_0000_0000_0000_0000_0000
  {
    hide IntPow;
    SmallPowers();
    PowersMultiply(4, 4, 16, 16, 0x100);
    PowersMultiply(8, 8, 0x100, 0x100, 0x1_0000);
    PowersMultiply(16, 7, 0x1_0000, 128, 0x80_0000);
    PowersMultiply(16, 16, 0x1_0000, 0x1_0000, 0x1_0000_0000);
    PowersMultiply(32, 16, 0x1_0000_0000, 0x1_0000, 0x1_0000_0000_0000);
    PowersMultiply(48, 4, 0x1_0000_0000_0000, 16, 0x10_0000_0000_0000);
    PowersMultiply(32, 32, 0x1_0000_0000, 0x1_0000_0000, 0x1_0000_0000_0000_0000);
    PowersMultiply(64, 48, 0x1_0000_0000_0000_0000, 0x1_0000_0000_0000, 0x1_0000_0000_0000_0000_0000_0000_0000);
  }

  // ---- The remainder ----

  /** `trunc_fraction`. */
  function Trunc(x: real): int { if x >= 0.0 then x.Floor else -((-x).Floor) }

  /** The fmod column. */
  function Fmod(a: real, b: real): real
    requires b != 0.0
  {
    a - b * Trunc(a / b) as real
  }

  lemma PositiveRemainder(a: real, b: real)
    requires a >= 0.0 && b > 0.0
    ensures a / b >= 0.0 && 0.0 <= a - b * (a / b).Floor as real < b
    ensures a - b * (a / b).Floor as real <= a
  {
    var q := a / b;
    assert b * q == a;
    MulMonoLeft(b, q, 0.0);
    RemainderRange(a, b, q, q.Floor as real);
  }

  lemma RemainderRange(a: real, b: real, q: real, t: real)
    requires b > 0.0 && b * q == a && 0.0 <= t <= q < t + 1.0
    ensures 0.0 <= a - b * t < b && a - b * t <= a
  {
    RemainderBounds(a, b, q, t, t + 1.0, b * t, b * (t + 1.0));
  }

  lemma RemainderBounds(a: real, b: real, q: real, t: real, t': real, bt: real, bt': real)
    requires b > 0.0 && b * q == a && 0.0 <= t <= q < t' && t' == t + 1.0 && bt == b * t && bt' == b * t'
    ensures 0.0 <= bt <= a < bt' && bt' == bt + b
  {
    TimesUpTo(b, t, q);
    TimesBelow(b, q, t');
    TimesUpTo(b, 0.0, t);
  }

  lemma TimesUpTo(b: real, x: real, y: real)
    requires b > 0.0 && x <= y
    ensures b * x <= b * y
  {
    MulMonoLeft(b, x, y);
  }

  lemma TimesBelow(b: real, x: real, y: real)
    requires b > 0.0 && x < y
    ensures b * x < b * y
  {
    MulMonoLeft(b, x, y);
  }

  lemma CancelRight(x: real, y: real, b: real)
    requires b != 0.0 && x * b == y * b
    ensures x == y
  {
    assert (x - y) * b == 0.0;
  }

  lemma SignedQuotient(a: real, b: real)
    requires b != 0.0
    ensures a / b == (if (a < 0.0) == (b < 0.0) then Abs(a) / Abs(b) else -(Abs(a) / Abs(b)))
  {
    var q, p := a / b, Abs(a) / Abs(b);
    assert q * b == a && p * Abs(b) == Abs(a);
    NegatedFactor(p, b);
    CancelRight(q, if (a < 0.0) == (b < 0.0) then p else -p, b);
  }

  lemma NegatedFactor(p: real, b: real)
    ensures p * (-b) == -(p * b) && (-p) * b == -(p * b)
  {
  }

  lemma NegativeProducts(b: real, t: real)
    ensures (-b) * (-t) == b * t && (-b) * t == -(b * t) && b * (-t) == -(b * t)
  {
  }

  /** The remainder of the magnitudes with the sign of the dividend. */
  lemma FmodByMagnitude(a: real, b: real)
    requires b != 0.0
    ensures var r := Abs(a) - Abs(b) * (Abs(a) / Abs(b)).Floor as real;
      Fmod(a, b) == (if a < 0.0 then -r else r)
  {
    var q := Abs(a) / Abs(b);
    PositiveRemainder(Abs(a), Abs(b));
    SignedQuotient(a, b);
    NegativeProducts(b, q.Floor as real);
    NegativeProducts(-b, q.Floor as real);
  }

  /** It is the remainder: the only number that differs from the dividend by a multiple of the divisor, is smaller
      than the divisor, and has the sign of the dividend or is zero. */
  lemma FmodIsTheRemainder(a: real, b: real, k: int, r: real)
    requires b != 0.0 && r == a - b * k as real && Abs(r) < Abs(b) && (r < 0.0 ==> a < 0.0) && (r > 0.0 ==> a > 0.0)
    ensures r == Fmod(a, b)
    ensures Fmod(a, b) == a - b * Trunc(a / b) as real
  {
    hide Trunc, Fmod, Abs;
    var t, s := Trunc(a / b), Fmod(a, b);
    var bk, bt := b * k as real, b * t as real;
    FmodIs(a, b, t, bt);
    FmodSide(a, b);
    NearTogether(a, b, r, s);
    DistanceOfRemainders(a, bk, bt, r, s);
    MultiplesApart(b, k, t, bk, bt);
  }

  lemma FmodIs(a: real, b: real, t: int, bt: real)
    requires b != 0.0 && t == Trunc(a / b) && bt == b * t as real
    ensures Fmod(a, b) == a - bt
  {
    hide Trunc;
  }

  lemma FmodSide(a: real, b: real)
    requires b != 0.0
    ensures Abs(Fmod(a, b)) < Abs(b) && if a < 0.0 then Fmod(a, b) <= 0.0 else 0.0 <= Fmod(a, b) <= a
  {
    hide Fmod;
    FmodByMagnitude(a, b);
    PositiveRemainder(Abs(a), Abs(b));
  }

  lemma NearTogether(a: real, b: real, r: real, s: real)
    requires Abs(r) < Abs(b) && (r < 0.0 ==> a < 0.0) && (r > 0.0 ==> a > 0.0)
    requires Abs(s) < Abs(b) && if a < 0.0 then s <= 0.0 else 0.0 <= s <= a
    ensures Abs(r - s) < Abs(b)
  {
  }

  lemma DistanceOfRemainders(a: real, bk: real, bt: real, r: real, s: real)
    requires r == a - bk && s == a - bt
    ensures Abs(bk - bt) == Abs(r - s)
  {
  }

  lemma MultiplesApart(b: real, k: int, t: int, bk: real, bt: real)
    requires b != 0.0 && bk == b * k as real && bt == b * t as real && Abs(bk - bt) < Abs(b)
    ensures k == t
  {
    var d := (k - t) as real;
    assert d == k as real - t as real;
    assert bk - bt == b * d;
    NegatedFactor(b, d);
    if k > t {
      AtLeastOne(b, d, b * d);
    } else if k < t {
      AtLeastOne(b, -d, -(b * d));
    }
  }

  lemma AtLeastOne(b: real, d: real, bd: real)
    requires d >= 1.0 && bd == b * d
    ensures Abs(bd) >= Abs(b)
  {
    if b > 0.0 {
      MulMonoLeft(b, 1.0, d);
    } else if b < 0.0 {
      MulMonoLeft(-b, 1.0, d);
      assert -b * d == -bd;
    }
  }

  /** A number of the format as a whole number of units of a finer or equal grid. */
  lemma InUnits(f: Format, y: real, m: int, e: int, g: int) returns (k: int)
    requires OnGrid(f, y, m, e) && g <= e
    ensures y == k as real * Ulp(f, g)
    ensures g == e ==> k == m
  {
    if g == e {
      k := m;
    } else {
      k := CoarserIsMultiple(f, g, e, m);
    }
  }

  lemma AbsOnGrid(f: Format, y: real, m: int, e: int)
    requires OnGrid(f, y, m, e)
    ensures OnGrid(f, Abs(y), if m < 0 then -m else m, e)
  {
    hide Pow, IntPow, Ulp;
    MulMono(m as real, 0.0, Ulp(f, e));
    MulMono(0.0, m as real, Ulp(f, e));
    NegatedFactor(m as real, Ulp(f, e));
  }

  /** A combination of whole units that is no larger than a number of the grid is on the grid. */
  lemma SmallOnGrid(f: Format, r: real, j: int, g: int, y: real, m: int)
    requires f.minExp <= g <= f.maxExp && r == j as real * Ulp(f, g) && 0.0 <= r <= y
    requires OnGrid(f, y, m, g)
    ensures Representable(f, r)
  {
    hide Pow, IntPow, Ulp;
    var u := Ulp(f, g);
    MulMono(j as real, 0.0, u);
    MulMono(m as real, j as real, u);
    assert OnGrid(f, r, j, g);
  }

  lemma CombineUnits(a: real, b: real, k: int, l: int, t: int, u: real)
    requires a == k as real * u && b == l as real * u
    ensures a - b * t as real == (k - l * t) as real * u
  {
    var x, y, z := k as real, l as real, t as real;
    assert (k - l * t) as real == x - y * z;
    assert (x - y * z) * u == x * u - (y * u) * z;
  }

  lemma PositiveFmodOnGrid(f: Format, a: real, b: real, ma: int, ea: int, mb: int, eb: int, t: int, r: real)
    requires a >= 0.0 && b > 0.0 && OnGrid(f, a, ma, ea) && OnGrid(f, b, mb, eb)
    requires r == a - b * t as real && 0.0 <= r && r <= a && r < b
    ensures Representable(f, r)
  {
    hide Pow, IntPow, Ulp, Representable;
    var g := if ea <= eb then ea else eb;
    OnGridRange(f, a, ma, ea);
    OnGridRange(f, b, mb, eb);
    hide OnGrid;
    var j := RemainderUnits(f, a, b, ma, ea, mb, eb, t, g);
    if g == ea {
      SmallOnGrid(f, r, j, g, a, ma);
    } else {
      SmallOnGrid(f, r, j, g, b, mb);
    }
  }

  lemma OnGridRange(f: Format, y: real, m: int, e: int)
    requires OnGrid(f, y, m, e)
    ensures f.minExp <= e <= f.maxExp
  {
  }

  lemma RemainderUnits(f: Format, a: real, b: real, ma: int, ea: int, mb: int, eb: int, t: int, g: int) returns (j: int)
    requires OnGrid(f, a, ma, ea) && OnGrid(f, b, mb, eb) && g <= ea && g <= eb
    ensures a - b * t as real == j as real * Ulp(f, g)
  {
    hide OnGrid, Ulp;
    var k := InUnits(f, a, ma, ea, g);
    var l := InUnits(f, b, mb, eb, g);
    j := k - l * t;
    CombineUnits(a, b, k, l, t, Ulp(f, g));
  }

  /** The remainder of two numbers of the format is smaller than the divisor, has the dividend's sign or
      is zero, and is itself a number of the format... */
  lemma FmodIsRepresentable(f: Format, a: real, b: real)
    requires b != 0.0 && Representable(f, a) && Representable(f, b)
    ensures Abs(Fmod(a, b)) < Abs(b) && Abs(Fmod(a, b)) <= Abs(a)
    ensures Fmod(a, b) != 0.0 ==> (Fmod(a, b) < 0.0 <==> a < 0.0)
    ensures Representable(f, Fmod(a, b))
  {
    hide Pow, IntPow, Ulp, OnGrid, Fmod;
    var ma: int, ea: int :| OnGrid(f, a, ma, ea);
    var mb: int, eb: int :| OnGrid(f, b, mb, eb);
    AbsOnGrid(f, a, ma, ea);
    AbsOnGrid(f, b, mb, eb);
    var t := (Abs(a) / Abs(b)).Floor;
    var r := Abs(a) - Abs(b) * t as real;
    PositiveRemainder(Abs(a), Abs(b));
    PositiveFmodOnGrid(f, Abs(a), Abs(b), if ma < 0 then -ma else ma, ea, if mb < 0 then -mb else mb, eb, t, r);
    FmodByMagnitude(a, b);
    NegatedIsRepresentable(f, r);
  }

  /** Writing a number of the format loses nothing: the pattern decodes to it, and has its sign, or for zero
      the sign asked for. */
  lemma BitsOfRepresentable(f: Format, v: real, negativeZero: bool)
    requires Valid(f) && f.maxExp + f.bias >= 0 && Representable(f, v)
    ensures var bits := BitsOf(f, v, negativeZero);
      && IsPattern(f, bits) && BiasedField(f, bits) != Special(f)
      && ValueOf(f, bits) == v
      && SignField(f, bits) == if v != 0.0 then Sign(v) else if negativeZero then 1 else 0
  {
    hide Pow, IntPow, Ulp, OnGrid, Magnitude, SignField, BiasedField, FracField, Round, Pack;
    var sign := if v != 0.0 then Sign(v) else if negativeZero then 1 else 0;
    var r := if v == 0.0 then Finite(sign, 0, 0) else Round(f, v);
    PowOfNat(Two, f.mant);
    if v != 0.0 {
      RoundingIsExact(f, v);
      RoundIsFields(f, v);
    } else {
      ZeroFields(f, sign);
    }
    FieldsOfPack(f, r.sign, r.biased, r.frac);
  }

  /** ... so that writing it into the table loses nothing: the pattern decodes to the exact remainder, and its
      sign bit is set exactly for a dividend below zero, if the remainder is zero too. */
  lemma FmodVectorIsExact(f: Format, a: real, b: real)
    requires Valid(f) && f.maxExp + f.bias >= 0
    requires b != 0.0 && Representable(f, a) && Representable(f, b)
    ensures var bits := BitsOf(f, Fmod(a, b), a < 0.0);
      && IsPattern(f, bits) && BiasedField(f, bits) != Special(f)
      && ValueOf(f, bits) == Fmod(a, b)
      && SignField(f, bits) == Sign(a)
  {
    hide Pow, IntPow, Ulp, OnGrid, Fmod, ValueOf, BiasedField, FracField, Round, Pack;
    FmodIsRepresentable(f, a, b);
    BitsOfRepresentable(f, Fmod(a, b), a < 0.0);
  }

  /** What a pattern that is not special stands for is a number of the format. */
  lemma PatternIsRepresentable(f: Format, bits: int)
    requires Valid(f) && f.maxExp + f.bias >= 0 && IsPattern(f, bits) && BiasedField(f, bits) != Special(f)
    ensures Representable(f, ValueOf(f, bits))
    ensures ValueOf(f, bits) != 0.0 ==> SignField(f, bits) == Sign(ValueOf(f, bits))
  {
    hide Pow, IntPow, Ulp, SignField, BiasedField, FracField, Representable;
    PackOfFields(f, bits);
    var r := Finite(SignField(f, bits), BiasedField(f, bits), FracField(f, bits));
    CanonicalIsRepresentable(f, r);
    MagnitudeIsNotNegative(f, r.biased, r.frac);
    assert Decode(f, r) == ValueOf(f, bits);
  }

  lemma MagnitudeIsNotNegative(f: Format, biased: int, frac: int)
    requires Valid(f) && 0 <= biased && 0 <= frac
    ensures Magnitude(f, biased, frac) >= 0.0
  {
    hide Pow, IntPow, Ulp;
    PowOfNat(Two, f.mant);
    MulMono(0.0, (if biased == 0 then frac else frac + IntPow(Two, f.mant)) as real, Ulp(f, if biased == 0 then f.minExp else biased - f.bias));
  }

  /** The fmod column for two patterns: always the exact remainder, and with the sign bit of the dividend
      exactly if the dividend is not the negative zero. */
  lemma FmodOfPatterns(f: Format, p: int, q: int)
    requires Valid(f) && f.maxExp + f.bias >= 0
    requires IsPattern(f, p) && BiasedField(f, p) != Special(f) && IsPattern(f, q) && BiasedField(f, q) != Special(f)
    requires ValueOf(f, q) != 0.0
    ensures var a, b := ValueOf(f, p), ValueOf(f, q); var bits := BitsOf(f, Fmod(a, b), a < 0.0);
      && IsPattern(f, bits) && BiasedField(f, bits) != Special(f)
      && ValueOf(f, bits) == Fmod(a, b)
      && (SignField(f, bits) == SignField(f, p) <==> ValueOf(f, p) != 0.0 || SignField(f, p) == 0)
  {
    hide Pow, IntPow, Ulp, Fmod, ValueOf, BiasedField, FracField, SignField, Representable, BitsOf;
    PatternIsRepresentable(f, p);
    PatternIsRepresentable(f, q);
    FmodVectorIsExact(f, ValueOf(f, p), ValueOf(f, q));
  }

  lemma ZeroFields(f: Format, sign: int)
    ensures Magnitude(f, 0, 0) == 0.0
    ensures Pack(f, 0, 0, 0) == 0
  {
  }

  /** Packing is undone field by field. */
  lemma FieldsOfPack(f: Format, sign: int, biased: int, frac: int)
    requires Valid(f) && f.maxExp + f.bias >= 0
    requires 0 <= sign <= 1 && 0 <= biased <= Special(f) && 0 <= frac < IntPow(Two, f.mant)
    ensures IsPattern(f, Pack(f, sign, biased, frac))
    ensures SignField(f, Pack(f, sign, biased, frac)) == sign
    ensures BiasedField(f, Pack(f, sign, biased, frac)) == biased
    ensures FracField(f, Pack(f, sign, biased, frac)) == frac
  {
    hide IntPow;
    PowOfNat(Two, f.mant);
    var m, n := IntPow(Two, f.mant), ExpRange(f);
    DivideSum(sign * n + biased, frac, m);
    DivideSum(sign, biased, n);
  }

  lemma DivideSum(q: int, r: int, m: int)
    requires 0 <= r < m && q >= 0
    ensures (q * m + r) / m == q && (q * m + r) % m == r && q * m + r >= 0
  {
    var s := q * m + r;
    assert s == s / m * m + s % m;
    var d := s / m - q;
    assert d * m == r - s % m;
    assert -m < d * m < m;
    assert d >= 1 ==> d * m >= m;
    assert d <= -1 ==> d * m <= -m;
  }
}
