/** Whole numbers as doubles: the binary64 format of IEEE 754 with rounding to the nearest, ties to even. */
module Doubles {
  import opened Arithmetic

  const TWO_52: nat := 0x10_0000_0000_0000
  const TWO_53: nat := 0x20_0000_0000_0000

  /** The distance of neighbouring doubles at `x`, for whole numbers 1 or more. */
  function Unit(x: nat): (u: nat)
    ensures u > 0
  {
    if x < TWO_53 then 1 else 2 * Unit(x / 2)
  }

  /** The nearest multiple of `unit`, of two equally near ones the even one. */
  function Nearest(x: nat, unit: nat): nat
    requires unit > 0
  {
    var q, r := x / unit, x % unit;
    if 2 * r > unit || (2 * r == unit && q % 2 == 1) then (q + 1) * unit else q * unit
  }

  /** static_cast<double> */
  function ToDouble(x: nat): nat {
    Nearest(x, Unit(x))
  }

  function Distance(a: nat, b: nat): nat {
    if a >= b then a - b else b - a
  }

  /** The absolute value of the difference of two doubles, rounded as well. */
  function DoubleDistance(a: nat, b: nat): nat {
    ToDouble(Distance(ToDouble(a), ToDouble(b)))
  }

  /** Whole numbers up to 2^53 are doubles. */
  lemma Exact(x: nat)
    requires x <= TWO_53
    ensures ToDouble(x) == x
  {
    if x == TWO_53 {
      assert Unit(x / 2) == 1;
    }
  }

  lemma {:induction false} UnitBound(x: nat)
    requires x >= TWO_53
    ensures Unit(x) >= 2 && Unit(x) * TWO_52 <= x
    decreases x
  {
    if x / 2 >= TWO_53 {
      UnitBound(x / 2);
    }
  }

  lemma NearestBounds(x: nat, unit: nat)
    requires unit > 0
    ensures Distance(Nearest(x, unit), x) * 2 <= unit
    ensures Nearest(x, unit) >= x / unit * unit
  {
    var q, r := x / unit, x % unit;
    assert x == q * unit + r;
    assert (q + 1) * unit == q * unit + unit;
  }

  lemma QuotientBound(x: nat, unit: nat, n: nat)
    requires unit > 0 && unit * n <= x
    ensures x / unit * unit >= unit * n
  {
    var q, r := x / unit, x % unit;
    assert x == q * unit + r;
    if q < n {
      assert unit * n == unit * q + unit * (n - q);
      assert unit * (n - q) >= unit by { Times(unit, n - q); }
    } else {
      assert unit * q == unit * n + unit * (q - n);
      Times(unit, q - n);
    }
  }

  lemma Times(unit: nat, n: nat)
    ensures unit * n >= 0 && (n >= 1 ==> unit * n >= unit)
  {
    if n >= 1 {
      assert unit * n == unit + unit * (n - 1);
      assert unit * (n - 1) >= 0;
    }
  }

  /** Rounding never brings a number across 2^53. */
  lemma LargeStaysLarge(x: nat)
    requires x >= TWO_53
    ensures ToDouble(x) >= TWO_53
  {
    UnitBound(x);
    NearestBounds(x, Unit(x));
    QuotientBound(x, Unit(x), TWO_52);
  }

  /** The rounding of the difference decides no comparison with a bound up to 2^53. */
  lemma RoundedBound(x: nat, bound: nat)
    requires bound < TWO_53
    ensures ToDouble(x) <= bound <==> x <= bound
  {
    if x <= TWO_53 {
      Exact(x);
    } else {
      LargeStaysLarge(x);
    }
    hide ToDouble;
  }

  /** On numbers up to 2^53 the test is the exact one. */
  lemma TestIsExact(a: nat, b: nat, bound: nat)
    requires a <= TWO_53 && b <= TWO_53 && bound < TWO_53
    ensures DoubleDistance(a, b) <= bound <==> Distance(a, b) <= bound
  {
    Exact(a);
    Exact(b);
    RoundedBound(Distance(a, b), bound);
    hide ToDouble;
  }

  lemma {:induction false} UnitAtMost(x: nat, k: nat)
    requires x < TWO_53 * Pow2(k)
    ensures Unit(x) <= Pow2(k)
    decreases k
  {
    if k > 0 {
      var p := Pow2(k - 1);
      assert Pow2(k) == 2 * p;
      assert TWO_53 * (2 * p) == 2 * (TWO_53 * p);
      UnitAtMost(x / 2, k - 1);
    }
  }

  lemma UnitOf64(x: nat)
    requires x < 0x1_0000_0000_0000_0000
    ensures Unit(x) <= 2048
  {
    assert Pow2(11) == 2048;
    UnitAtMost(x, 11);
  }

  /** On 64-bit numbers it is at most 2048 off. */
  lemma TestIsClose(a: nat, b: nat, bound: nat)
    requires a < 0x1_0000_0000_0000_0000 && b < 0x1_0000_0000_0000_0000 && 2048 <= bound < TWO_53
    ensures Distance(a, b) <= bound - 2048 ==> DoubleDistance(a, b) <= bound
    ensures DoubleDistance(a, b) <= bound ==> Distance(a, b) <= bound + 2048
  {
    UnitOf64(a);
    UnitOf64(b);
    NearestBounds(a, Unit(a));
    NearestBounds(b, Unit(b));
    RoundedBound(Distance(ToDouble(a), ToDouble(b)), bound);
    hide Unit, Nearest;
  }
}
