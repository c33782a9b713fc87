/** Powers of two and ten with integer exponents, the place of a number between two powers, and rounding a
    real to an integer with ties to even. The binary and the decimal conversions share them. What is
    nonlinear about real arithmetic is kept in small lemmas here, so that the proofs above can treat
    powers as plain positive numbers. */
module Powers {

  datatype Base = Two | Ten

  /** One place up. */
  function Times(b: Base, x: real): real { if b.Two? then 2.0 * x else 10.0 * x }

  /** One place down. */
  function Over(b: Base, x: real): real { if b.Two? then x / 2.0 else x / 10.0 }

  function Pow(b: Base, e: int): real
    decreases if e >= 0 then e else -e
  {
    if e == 0 then 1.0 else if e > 0 then Times(b, Pow(b, e - 1)) else Over(b, Pow(b, e + 1))
  }

  function IntPow(b: Base, n: nat): nat {
    if n == 0 then 1 else if b.Two? then 2 * IntPow(b, n - 1) else 10 * IntPow(b, n - 1)
  }

  lemma {:induction false} IntPowPositive(b: Base, n: nat)
    ensures IntPow(b, n) >= 1
  {
    if n > 0 {
      IntPowPositive(b, n - 1);
    }
  }

  lemma {:induction false} PowPositive(b: Base, e: int)
    ensures Pow(b, e) > 0.0
    decreases if e >= 0 then e else -e
  {
    if e > 0 { PowPositive(b, e - 1); } else if e < 0 { PowPositive(b, e + 1); }
  }

  lemma PowStep(b: Base, e: int)
    ensures Pow(b, e + 1) == Times(b, Pow(b, e))
  {
  }

  lemma PowZero(b: Base)
    ensures Pow(b, 0) == 1.0
  {
  }

  /** Multiplying by a positive number keeps the order. */
  lemma Scaling(z: real, x: real, y: real)
    requires z > 0.0
    ensures x <= y <==> z * x <= z * y
    ensures x < y <==> z * x < z * y
    ensures z * (x - y) == z * x - z * y
  {
    if x < y {
      assert z * (y - x) > 0.0;
    } else if y < x {
      assert z * (x - y) > 0.0;
    }
  }

  lemma MulMono(a: real, b: real, u: real)
    requires u > 0.0
    ensures a < b ==> a * u < b * u
    ensures a <= b ==> a * u <= b * u
  {
    if a < b {
      assert (b - a) * u > 0.0;
    }
  }

  lemma MulMonoLeft(u: real, a: real, b: real)
    requires u > 0.0
    ensures a < b ==> u * a < u * b
    ensures a <= b ==> u * a <= u * b
  {
    if a < b {
      assert u * (b - a) > 0.0;
    }
  }

  // The same facts with the products named, so that what uses them is linear.

  lemma LessNamed(a: real, b: real, u: real, au: real, bu: real)
    requires u > 0.0 && a < b && au == a * u && bu == b * u
    ensures au < bu
  {
    MulMono(a, b, u);
  }

  lemma UpToNamed(a: real, b: real, u: real, au: real, bu: real)
    requires u > 0.0 && a <= b && au == a * u && bu == b * u
    ensures au <= bu
  {
    MulMono(a, b, u);
  }

  /** A positive factor can be cancelled. */
  lemma CancelNamed(a: real, b: real, u: real, au: real, bu: real)
    requires u > 0.0 && au < bu && au == a * u && bu == b * u
    ensures a < b
  {
    if b <= a {
      MulMono(b, a, u);
    }
  }

  lemma OneMoreNamed(a: real, a': real, u: real, au: real, au': real)
    requires a' == a + 1.0 && au == a * u && au' == a' * u
    ensures au' == au + u
  {
  }

  lemma Commuted(a: real, b: real)
    ensures a * b == b * a
  {
  }

  lemma TimesInside(b: Base, x: real, y: real, s: real, y': real)
    requires s == x * y && y' == Times(b, y)
    ensures Times(b, s) == x * y'
  {
    if b.Two? {
      assert x * (2.0 * y) == 2.0 * (x * y);
    } else {
      assert x * (10.0 * y) == 10.0 * (x * y);
    }
  }

  lemma {:induction false} PowSum(b: Base, e: int, f: int)
    ensures Pow(b, e + f) == Pow(b, e) * Pow(b, f)
    decreases if f >= 0 then f else -f
  {
    hide Pow;
    if f == 0 {
      PowZero(b);
    } else if f > 0 {
      PowSum(b, e, f - 1);
      PowSumStep(b, e, f - 1);
    } else {
      PowSum(b, e, f + 1);
      PowSumStep(b, e, f);
    }
  }

  lemma PowSumStep(b: Base, e: int, f: int)
    ensures Pow(b, e + (f + 1)) == Pow(b, e) * Pow(b, f + 1) <==> Pow(b, e + f) == Pow(b, e) * Pow(b, f)
  {
    hide Pow;
    PowStep(b, e + f);
    PowStep(b, f);
    assert e + (f + 1) == (e + f) + 1;
    TimesInside(b, Pow(b, e), Pow(b, f), Pow(b, e) * Pow(b, f), Pow(b, f + 1));
  }

  lemma {:induction false} PowIncreases(b: Base, e: int, f: int)
    requires e <= f
    ensures Pow(b, e) <= Pow(b, f)
    ensures e < f ==> Times(b, Pow(b, e)) <= Pow(b, f)
    decreases f - e
  {
    PowPositive(b, e);
    if e < f {
      PowIncreases(b, e, f - 1);
      PowStep(b, f - 1);
    }
  }

  lemma {:induction false} PowOfNat(b: Base, n: nat)
    ensures Pow(b, n) == IntPow(b, n) as real
    ensures IntPow(b, n) >= 1
  {
    if n > 0 {
      PowOfNat(b, n - 1);
    }
  }

  // ---- Where a number stands ----

  /** b^e <= x < b^(e+1). */
  predicate InBinade(b: Base, x: real, e: int) {
    Pow(b, e) <= x < Pow(b, e + 1)
  }

  lemma BinadeUnique(b: Base, x: real, e: int, f: int)
    requires InBinade(b, x, e) && InBinade(b, x, f)
    ensures e == f
  {
    if e < f {
      PowIncreases(b, e + 1, f);
    } else if f < e {
      PowIncreases(b, f + 1, e);
    }
  }

  /** Every positive number has its place. */
  ghost function Binade(b: Base, x: real): (e: int)
    requires x > 0.0
    ensures InBinade(b, x, e)
  {
    BinadeExists(b, x);
    var e :| InBinade(b, x, e);
    e
  }

  lemma BinadeExists(b: Base, x: real)
    requires x > 0.0
    ensures exists e :: InBinade(b, x, e)
  {
    if x >= 1.0 {
      BinadeAbove(b, x);
    } else {
      BinadeBelow(b, x);
    }
  }

  lemma BinadeShift(b: Base, x: real, e: int)
    ensures InBinade(b, x, e) <==> InBinade(b, Times(b, x), e + 1)
  {
    PowStep(b, e);
    PowStep(b, e + 1);
  }

  lemma {:induction false} BinadeAbove(b: Base, x: real)
    requires x >= 1.0
    ensures exists e :: InBinade(b, x, e)
    decreases x.Floor
  {
    if x < Times(b, 1.0) {
      PowStep(b, 0);
      assert InBinade(b, x, 0);
    } else {
      var y := Over(b, x);
      BinadeAbove(b, y);
      var e :| InBinade(b, y, e);
      BinadeShift(b, y, e);
    }
  }

  /** Going one place up from below one brings the inverse down. */
  lemma InverseFloor(b: Base, x: real)
    requires 0.0 < x && Times(b, x) < 1.0
    ensures (1.0 / Times(b, x)).Floor < (1.0 / x).Floor
  {
    var t := 1.0 / x;
    var u := 1.0 / Times(b, x);
    assert t * x == 1.0 && u * Times(b, x) == 1.0;
    InverseShrinks(b, x, t, u);
  }

  lemma InverseShrinks(b: Base, x: real, t: real, u: real)
    requires x > 0.0 && t * x == 1.0 && u * Times(b, x) == 1.0 && Times(b, x) < 1.0
    ensures u > 1.0 && t == Times(b, u)
  {
    if b.Two? {
      assert (2.0 * u) * x == u * (2.0 * x);
      assert (t - 2.0 * u) * x == 0.0;
    } else {
      assert (10.0 * u) * x == u * (10.0 * x);
      assert (t - 10.0 * u) * x == 0.0;
    }
    MulMono(u, 1.0, Times(b, x));
    var p := u * Times(b, x);
    assert u <= 1.0 ==> p <= Times(b, x);
  }

  lemma {:induction false} BinadeBelow(b: Base, x: real)
    requires 0.0 < x < 1.0
    ensures exists e :: InBinade(b, x, e)
    decreases (1.0 / x).Floor
  {
    var y := Times(b, x);
    var e: int;
    if y >= 1.0 {
      BinadeAbove(b, y);
      e :| InBinade(b, y, e);
    } else {
      InverseFloor(b, x);
      assert 1.0 / y > 0.0;
      BinadeBelow(b, y);
      e :| InBinade(b, y, e);
    }
    BinadeShift(b, x, e - 1);
  }

  // ---- Rounding to an integer ----

  /** The integer part, one more when what is left is over one half, or one half over an odd number. */
  function HalfEven(x: real): int {
    var whole := x.Floor;
    var rem := x - whole as real;
    if rem > 0.5 || (rem == 0.5 && whole % 2 == 1) then whole + 1 else whole
  }

  function Abs(x: real): real { if x < 0.0 then -x else x }

  /** An even integer is reached from one half below it on. */
  lemma HalfEvenReaches(x: real, n: int)
    requires n % 2 == 0
    ensures HalfEven(x) >= n <==> x >= n as real - 0.5
  {
  }

  lemma HalfEvenBounds(x: real, lo: int, hi: int)
    requires lo as real <= x <= hi as real
    ensures lo <= HalfEven(x) <= hi
  {
  }

  // ---- Rounding to a multiple of a unit ----

  lemma HalfAbove(u: real, q: real, n: real, x: real, r: real)
    requires u > 0.0 && x == q * u && r == n * u
    ensures q <= n + 0.5 ==> x <= r + u / 2.0
    ensures q < n + 0.5 ==> x < r + u / 2.0
  {
    var hi := n + 0.5;
    assert hi * u == n * u + 0.5 * u;
    MulMono(q, hi, u);
  }

  lemma HalfBelow(u: real, q: real, n: real, x: real, r: real)
    requires u > 0.0 && x == q * u && r == n * u
    ensures n - 0.5 <= q ==> r - u / 2.0 <= x
    ensures n - 0.5 < q ==> r - u / 2.0 < x
  {
    var lo := n - 0.5;
    assert lo * u == n * u - 0.5 * u;
    MulMono(lo, q, u);
  }

  lemma GridGap(u: real, n: int, k: int, r: real, y: real)
    requires u > 0.0 && r == n as real * u && y == k as real * u
    ensures y == r || y >= r + u || y <= r - u
  {
    if k < n {
      var m := n as real - 1.0;
      OneMoreNamed(m, n as real, u, m * u, r);
      UpToNamed(k as real, m, u, y, m * u);
    } else if n < k {
      var m := n as real + 1.0;
      OneMoreNamed(n as real, m, u, r, m * u);
      UpToNamed(m, k as real, u, m * u, y);
    }
  }

  /** Rounding the quotient by `u` half to even gives the multiple of `u` that is nearest. */
  lemma NearestMultiple(u: real, q: real, n: int, k: int, x: real, r: real, y: real)
    requires u > 0.0 && x == q * u && n == HalfEven(q) && r == n as real * u && y == k as real * u
    ensures Abs(r - x) <= Abs(y - x)
    ensures Abs(r - x) == Abs(y - x) && y != r ==> n % 2 == 0
  {
    HalfAbove(u, q, n as real, x, r);
    HalfBelow(u, q, n as real, x, r);
    GridGap(u, n, k, r, y);
  }

  lemma FartherBelow(r: real, x: real, y: real, z: real)
    requires y < z <= x && Abs(r - x) <= Abs(z - x)
    ensures Abs(r - x) < Abs(y - x)
  {
  }

  lemma DivideBack(x: real, u: real)
    requires u > 0.0
    ensures (x / u) * u == x
  {
  }

  lemma QuotientRange(x: real, u: real, q: real, lo: real, hi: real)
    requires u > 0.0 && q * u == x && x > 0.0
    ensures q > 0.0
    ensures x < hi * u ==> q < hi
    ensures lo * u <= x ==> lo <= q
  {
    MulMono(hi, q, u);
    MulMono(q, lo, u);
    MulMono(q, 0.0, u);
  }
}
