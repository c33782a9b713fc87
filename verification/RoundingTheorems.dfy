/** What `round_to_format` is for: sections 4.3.1 and 7.4 of IEEE 754-2008, for every format and value. */
module RoundingTheorems {
  import opened Powers
  import opened Rounding

  // ---- Meaning of the fields ----

  /** The magnitude the exponent and fraction fields stand for. */
  function Magnitude(f: Format, biased: int, frac: int): real {
    if biased == 0 then frac as real * Ulp(f, f.minExp)
    else (frac + IntPow(Two, f.mant)) as real * Ulp(f, biased - f.bias)
  }

  function Decode(f: Format, r: Rounded): real
    requires r.Finite?
  {
    if r.sign == 1 then -Magnitude(f, r.biased, r.frac) else Magnitude(f, r.biased, r.frac)
  }

  /** The fields a finite pattern may have. */
  predicate Canonical(f: Format, r: Rounded) {
    && r.Finite? && 0 <= r.sign <= 1
    && 0 <= r.biased <= f.maxExp + f.bias
    && 0 <= r.frac < IntPow(Two, f.mant)
  }

  /** `y` is `m` units of the grid of exponent `e`. */
  ghost predicate OnGrid(f: Format, y: real, m: int, e: int) {
    && f.minExp <= e <= f.maxExp
    && -(IntPow(Two, f.mant + 1) as int) < m < IntPow(Two, f.mant + 1)
    && y == m as real * Ulp(f, e)
  }

  /** The numbers the format has. */
  ghost predicate Representable(f: Format, y: real) {
    exists m: int, e: int :: OnGrid(f, y, m, e)
  }

  /** From here on rounding overflows. */
  function Threshold(f: Format): real {
    (IntPow(Two, f.mant + 1) as real - 0.5) * Ulp(f, f.maxExp)
  }

  // ---- The grid ----

  lemma UlpSplit(f: Format, e: int)
    ensures Pow(Two, e) == IntPow(Two, f.mant) as real * Ulp(f, e)
    ensures Pow(Two, e + 1) == IntPow(Two, f.mant + 1) as real * Ulp(f, e)
  {
    hide Pow, IntPow;
    PowProduct(f.mant, e - f.mant, e);
    PowOfNat(Two, f.mant);
    PowProduct(f.mant + 1, e - f.mant, e + 1);
    PowOfNat(Two, f.mant + 1);
  }

  lemma NextUlp(f: Format, e: int)
    ensures Ulp(f, e + 1) == 2.0 * Ulp(f, e)
  {
    PowStep(Two, e - f.mant);
  }

  lemma SignificandSizes(f: Format)
    requires Valid(f)
    ensures IntPow(Two, f.mant) >= 2 && IntPow(Two, f.mant) % 2 == 0
    ensures IntPow(Two, f.mant + 1) == 2 * IntPow(Two, f.mant)
  {
    IntPowPositive(Two, f.mant - 1);
    Doubled(IntPow(Two, f.mant - 1), IntPow(Two, f.mant));
  }

  lemma Doubled(half: nat, whole: nat)
    requires half >= 1 && whole == 2 * half
    ensures whole >= 2 && whole % 2 == 0
  {
  }

  lemma GridInUnits(f: Format, x: real)
    requires x > 0.0
    ensures x < IntPow(Two, f.mant + 1) as real * Ulp(f, GridExponent(f, x))
    ensures GridExponent(f, x) > f.minExp ==> IntPow(Two, f.mant) as real * Ulp(f, GridExponent(f, x)) <= x
  {
    hide Pow, IntPow, Ulp;
    if Binade(Two, x) < f.minExp {
      PowIncreases(Two, Binade(Two, x) + 1, f.minExp + 1);
    }
    UlpSplit(f, GridExponent(f, x));
  }

  /** The value in units of its grid. */
  ghost function Scaled(f: Format, x: real): real
    requires x > 0.0
  {
    x / Ulp(f, GridExponent(f, x))
  }

  /** Measured in units of its grid a value stays below twice the smallest normal significand, and
      reaches the smallest normal significand unless the grid is the subnormal one. */
  lemma ScaledRange(f: Format, x: real)
    requires x > 0.0
    ensures Scaled(f, x) * Ulp(f, GridExponent(f, x)) == x
    ensures 0.0 < Scaled(f, x) < IntPow(Two, f.mant + 1) as real
    ensures GridExponent(f, x) > f.minExp ==> Scaled(f, x) >= IntPow(Two, f.mant) as real
  {
    hide Pow, IntPow, Ulp;
    var u := Ulp(f, GridExponent(f, x));
    GridInUnits(f, x);
    DivideBack(x, u);
    hide Scaled;
    QuotientRange(x, u, x / u, IntPow(Two, f.mant) as real, IntPow(Two, f.mant + 1) as real);
  }

  /** Rounding goes to whole units, at most to the next power of two. */
  lemma UnitsRange(f: Format, x: real)
    requires x > 0.0
    ensures 0 <= Units(f, x) <= IntPow(Two, f.mant + 1)
    ensures GridExponent(f, x) > f.minExp ==> Units(f, x) >= IntPow(Two, f.mant)
  {
    hide Pow, IntPow, Ulp;
    ScaledRange(f, x);
    var lo := if GridExponent(f, x) > f.minExp then IntPow(Two, f.mant) else 0;
    HalfEvenBounds(Scaled(f, x), lo, IntPow(Two, f.mant + 1));
  }

  /** The fields stand for exactly the rounded number of units, carry or not. */
  lemma FieldsMean(f: Format, sign: int, e: int, whole: int)
    requires Valid(f) && 0 <= sign <= 1 && f.minExp <= e
    requires 0 <= whole <= IntPow(Two, f.mant + 1)
    requires e > f.minExp ==> whole >= IntPow(Two, f.mant)
    requires Fields(f, sign, e, whole).Finite?
    ensures var r := Fields(f, sign, e, whole);
      && Canonical(f, r) && r.sign == sign
      && Magnitude(f, r.biased, r.frac) == whole as real * Ulp(f, e)
      && r.frac % 2 == (if whole < IntPow(Two, f.mant + 1) then whole % 2 else 0)
  {
    hide Pow, IntPow, Ulp;
    SignificandSizes(f);
    if whole == IntPow(Two, f.mant + 1) {
      FieldsAfterCarry(f, sign, e, whole);
    } else {
      hide Magnitude;
      FieldsWithoutCarry(f, sign, e, whole);
    }
  }

  lemma FieldsWithoutCarry(f: Format, sign: int, e: int, whole: int)
    requires Valid(f) && f.minExp <= e <= f.maxExp && 0 <= whole < IntPow(Two, f.mant + 1)
    requires e > f.minExp ==> whole >= IntPow(Two, f.mant)
    ensures var r := Fields(f, sign, e, whole);
      && r.Finite?
      && Magnitude(f, r.biased, r.frac) == whole as real * Ulp(f, e)
  {
    hide Pow, IntPow, Ulp;
    var r := Fields(f, sign, e, whole);
    if whole >= IntPow(Two, f.mant) {
      assert r.frac + IntPow(Two, f.mant) == whole && r.biased - f.bias == e;
    } else {
      assert r.biased == 0 && r.frac == whole && e == f.minExp;
    }
  }

  lemma FieldsAfterCarry(f: Format, sign: int, e: int, whole: int)
    requires Valid(f) && f.minExp <= e && whole == IntPow(Two, f.mant + 1)
    requires Fields(f, sign, e, whole).Finite?
    ensures Fields(f, sign, e, whole) == Finite(sign, e + 1 + f.bias, 0)
    ensures Magnitude(f, e + 1 + f.bias, 0) == whole as real * Ulp(f, e)
  {
    hide Pow, IntPow, Ulp;
    SignificandSizes(f);
    NextUlp(f, e);
    CarryMeans(IntPow(Two, f.mant), Ulp(f, e), Ulp(f, e + 1));
  }

  lemma CarryMeans(half: int, u: real, u': real)
    requires u' == 2.0 * u
    ensures half as real * u' == (2 * half) as real * u
  {
  }

  // ---- Nearest, ties to even ----

  /** A number of a finer grid lies below a grid point that is itself not above `x`. */
  lemma FinerIsBelow(f: Format, x: real, y: real, m: int, e: int)
    requires x > 0.0 && OnGrid(f, y, m, e) && e < GridExponent(f, x)
    ensures y < IntPow(Two, f.mant) as real * Ulp(f, GridExponent(f, x)) <= x
  {
    hide Pow, IntPow, Ulp;
    var g := GridExponent(f, x);
    assert g > f.minExp;
    GridInUnits(f, x);
    FinerTop(f, e, g);
    MulMono(m as real, IntPow(Two, f.mant + 1) as real, Ulp(f, e));
  }

  lemma FinerTop(f: Format, e: int, g: int)
    requires e < g
    ensures IntPow(Two, f.mant + 1) as real * Ulp(f, e) <= IntPow(Two, f.mant) as real * Ulp(f, g)
  {
    hide Pow, IntPow, Ulp;
    UlpSplit(f, e);
    UlpSplit(f, g);
    PowIncreases(Two, e + 1, g);
  }

  /** A number of a coarser grid is a grid point. */
  lemma {:induction false} CoarserIsMultiple(f: Format, g: int, e: int, m: int) returns (k: int)
    requires g <= e
    ensures m as real * Ulp(f, e) == k as real * Ulp(f, g)
    decreases e - g
  {
    hide Pow, IntPow, Ulp;
    if g < e {
      NextUlp(f, e - 1);
      CarryMeans(m, Ulp(f, e - 1), Ulp(f, e));
      k := CoarserIsMultiple(f, g, e - 1, 2 * m);
    } else {
      k := m;
    }
  }

  /** The rounded magnitude: `Units` units of the grid. */
  ghost function RoundedMagnitude(f: Format, x: real): real
    requires x > 0.0
  {
    Units(f, x) as real * Ulp(f, GridExponent(f, x))
  }

  /** No grid point is closer to `x` than the rounded one. */
  lemma NearestOnGrid(f: Format, x: real, k: int, y: real)
    requires x > 0.0 && y == k as real * Ulp(f, GridExponent(f, x))
    ensures Abs(RoundedMagnitude(f, x) - x) <= Abs(y - x)
    ensures Abs(RoundedMagnitude(f, x) - x) == Abs(y - x) && y != RoundedMagnitude(f, x) ==> Units(f, x) % 2 == 0
  {
    hide Pow, IntPow, Ulp, HalfEven;
    ScaledRange(f, x);
    NearestMultiple(Ulp(f, GridExponent(f, x)), Scaled(f, x), Units(f, x), k, x, RoundedMagnitude(f, x), y);
  }

  /** No number of the format is closer to `x` than the rounded magnitude; a tie goes to an even number of units. */
  lemma NearestMagnitude(f: Format, x: real, y: real)
    requires x > 0.0 && Representable(f, y)
    ensures Abs(RoundedMagnitude(f, x) - x) <= Abs(y - x)
    ensures Abs(RoundedMagnitude(f, x) - x) == Abs(y - x) && y != RoundedMagnitude(f, x) ==> Units(f, x) % 2 == 0
  {
    hide Pow, IntPow, Ulp, RoundedMagnitude, Units;
    var m: int, e: int :| OnGrid(f, y, m, e);
    var g := GridExponent(f, x);
    if y < 0.0 {
      NearestOnGrid(f, x, 0, 0.0);
    } else if e >= g {
      var k := CoarserIsMultiple(f, g, e, m);
      NearestOnGrid(f, x, k, y);
    } else {
      FinerIsBelow(f, x, y, m, e);
      var z := IntPow(Two, f.mant) as real * Ulp(f, g);
      NearestOnGrid(f, x, IntPow(Two, f.mant), z);
      FartherBelow(RoundedMagnitude(f, x), x, y, z);
    }
  }

  // ---- The theorems ----

  lemma RoundIsFields(f: Format, v: real)
    requires Valid(f) && v != 0.0 && Round(f, v).Finite?
    ensures Canonical(f, Round(f, v)) && Round(f, v).sign == Sign(v)
    ensures Magnitude(f, Round(f, v).biased, Round(f, v).frac) == RoundedMagnitude(f, Abs(v))
    ensures Units(f, Abs(v)) % 2 == 0 ==> Round(f, v).frac % 2 == 0
  {
    hide Pow, IntPow, Ulp, Units, Magnitude, Fields;
    UnitsRange(f, Abs(v));
    FieldsMean(f, Sign(v), GridExponent(f, Abs(v)), Units(f, Abs(v)));
    SignificandSizes(f);
  }

  /** A finite result is a number of the format... */
  lemma CanonicalIsRepresentable(f: Format, r: Rounded)
    requires Valid(f) && Canonical(f, r)
    ensures Representable(f, Decode(f, r))
  {
    hide Pow, IntPow, Ulp;
    SignificandSizes(f);
    var s := if r.sign == 1 then -1 else 1;
    var m := if r.biased == 0 then r.frac else r.frac + IntPow(Two, f.mant);
    var e := if r.biased == 0 then f.minExp else r.biased - f.bias;
    SignedProduct(s, m, Ulp(f, e));
    assert OnGrid(f, Decode(f, r), s * m, e);
  }

  lemma SignedProduct(s: int, m: int, u: real)
    requires s == 1 || s == -1
    ensures (s * m) as real * u == if s == 1 then m as real * u else -(m as real * u)
  {
  }

  lemma NegatedIsRepresentable(f: Format, y: real)
    requires Representable(f, y)
    ensures Representable(f, -y)
  {
    hide Pow, IntPow, Ulp;
    var m: int, e: int :| OnGrid(f, y, m, e);
    SignedProduct(-1, m, Ulp(f, e));
    assert OnGrid(f, -y, -1 * m, e);
  }

  /** ... that no other number of the format is closer to the value than; when another is equally close
      the result is the one with the even fraction. */
  lemma RoundsToNearestEven(f: Format, v: real, y: real)
    requires Valid(f) && v != 0.0 && Round(f, v).Finite? && Representable(f, y)
    ensures Representable(f, Decode(f, Round(f, v)))
    ensures Abs(Decode(f, Round(f, v)) - v) <= Abs(y - v)
    ensures Abs(Decode(f, Round(f, v)) - v) == Abs(y - v) && y != Decode(f, Round(f, v)) ==> Round(f, v).frac % 2 == 0
  {
    hide Pow, IntPow, Ulp, Units, Magnitude, Fields, Round, RoundedMagnitude, Representable;
    RoundIsFields(f, v);
    CanonicalIsRepresentable(f, Round(f, v));
    if v > 0.0 {
      NearestMagnitude(f, v, y);
    } else {
      NegatedIsRepresentable(f, y);
      NearestMagnitude(f, -v, -y);
    }
  }

  lemma InfinityWhen(f: Format, v: real)
    requires v != 0.0
    ensures var e := GridExponent(f, Abs(v));
      Round(f, v).Infinity? <==> e > f.maxExp || (e == f.maxExp && Units(f, Abs(v)) >= IntPow(Two, f.mant + 1))
    ensures Round(f, v).sign == Sign(v)
  {
    hide Pow, IntPow, Ulp, Units;
  }

  /** The result is infinite exactly from half a unit above the largest finite number on. */
  lemma OverflowsExactlyFrom(f: Format, v: real)
    requires Valid(f) && v != 0.0
    ensures Round(f, v).Infinity? <==> (v >= Threshold(f) || v <= -Threshold(f))
    ensures Round(f, v).sign == Sign(v) == (if v < 0.0 then 1 else 0)
  {
    hide Pow, IntPow, Ulp, Units, Round, GridExponent, Threshold;
    var x := Abs(v);
    var e := GridExponent(f, x);
    InfinityWhen(f, v);
    if e > f.maxExp {
      AboveThreshold(f, x);
    } else if e == f.maxExp {
      AroundThreshold(f, x);
    } else {
      BelowThreshold(f, x);
    }
  }

  lemma AboveThreshold(f: Format, x: real)
    requires f.minExp <= f.maxExp && x > 0.0 && GridExponent(f, x) > f.maxExp
    ensures x >= Threshold(f)
  {
    hide Pow, IntPow, Ulp, GridExponent;
    var e := GridExponent(f, x);
    GridInUnits(f, x);
    FinerTop(f, f.maxExp, e);
    ThresholdBelow(IntPow(Two, f.mant + 1) as real, Ulp(f, f.maxExp));
  }

  lemma AroundThreshold(f: Format, x: real)
    requires Valid(f) && x > 0.0 && GridExponent(f, x) == f.maxExp
    ensures Units(f, x) >= IntPow(Two, f.mant + 1) <==> x >= Threshold(f)
  {
    hide Pow, IntPow, Ulp, GridExponent, HalfEven;
    var top := IntPow(Two, f.mant + 1);
    SignificandSizes(f);
    ScaledRange(f, x);
    HalfEvenReaches(Scaled(f, x), top);
    AtThreshold(x, Ulp(f, f.maxExp), Scaled(f, x), top as real - 0.5);
  }

  lemma BelowThreshold(f: Format, x: real)
    requires Valid(f) && x > 0.0 && GridExponent(f, x) < f.maxExp
    ensures x < Threshold(f)
  {
    hide Pow, IntPow, Ulp, GridExponent;
    SignificandSizes(f);
    GridInUnits(f, x);
    FinerTop(f, GridExponent(f, x), f.maxExp);
    MulMono(IntPow(Two, f.mant) as real, IntPow(Two, f.mant + 1) as real - 0.5, Ulp(f, f.maxExp));
  }

  lemma ThresholdBelow(top: real, u: real)
    requires u > 0.0
    ensures (top - 0.5) * u < top * u
  {
    MulMono(top - 0.5, top, u);
  }

  lemma AtThreshold(x: real, u: real, q: real, t: real)
    requires u > 0.0 && q * u == x
    ensures q >= t <==> x >= t * u
  {
    MulMono(q, t, u);
    MulMono(t, q, u);
  }

  /** Rounding never reverses an order. */
  lemma RoundingIsMonotone(f: Format, v: real, w: real)
    requires Valid(f) && v != 0.0 && w != 0.0 && v <= w
    requires Round(f, v).Finite? && Round(f, w).Finite?
    ensures Decode(f, Round(f, v)) <= Decode(f, Round(f, w))
  {
    hide Pow, IntPow, Ulp, Units, Magnitude, Fields, Round, Decode, Representable;
    var a, b := Decode(f, Round(f, v)), Decode(f, Round(f, w));
    RoundIsFields(f, v);
    RoundIsFields(f, w);
    CanonicalIsRepresentable(f, Round(f, v));
    CanonicalIsRepresentable(f, Round(f, w));
    RoundsToNearestEven(f, v, b);
    RoundsToNearestEven(f, w, a);
  }

  /** A number of the format is rounded to itself. */
  lemma RoundingIsExact(f: Format, y: real)
    requires Valid(f) && y != 0.0 && Representable(f, y)
    ensures Round(f, y).Finite? && Decode(f, Round(f, y)) == y
  {
    hide Pow, IntPow, Ulp, Units, Magnitude, Fields, Round, Decode, Representable;
    RepresentableIsBelow(f, y);
    OverflowsExactlyFrom(f, y);
    RoundsToNearestEven(f, y, y);
  }

  lemma RepresentableIsBelow(f: Format, y: real)
    requires Valid(f) && Representable(f, y)
    ensures Abs(y) < Threshold(f)
  {
    hide Pow, IntPow, Ulp;
    var m: int, e: int :| OnGrid(f, y, m, e);
    var u, u', top := Ulp(f, e), Ulp(f, f.maxExp), IntPow(Two, f.mant + 1);
    UlpGrows(f, e, f.maxExp);
    SignedProduct(if m < 0 then -1 else 1, m, u);
    var k := if m < 0 then -m else m;
    assert Abs(y) == k as real * u by {
      MulMono(0.0, 1.0, u);
      if m != 0 { MulMono(if m < 0 then m as real else 0.0, if m < 0 then 0.0 else m as real, u); }
    }
    WithinTop(k, top, u, u');
  }

  lemma UlpGrows(f: Format, e: int, g: int)
    requires e <= g
    ensures Ulp(f, e) <= Ulp(f, g)
  {
    PowIncreases(Two, e - f.mant, g - f.mant);
  }

  lemma WithinTop(k: int, top: int, u: real, u': real)
    requires 0 <= k < top && 0.0 < u <= u'
    ensures k as real * u < (top as real - 0.5) * u'
  {
    MulMono(k as real, top as real - 0.5, u');
    if k > 0 && u < u' {
      MulMonoLeft(k as real, u, u');
    }
  }
}
