/** Facts about division with remainder, powers of two and masking. */
module Arithmetic {

  lemma MulBound(n: int, q: int)
    requires n >= 0
    ensures q >= 1 ==> n * q >= n
    ensures q <= -1 ==> n * q <= -n
  {
    if q >= 1 {
      assert n * q == n + n * (q - 1);
    } else if q <= -1 {
      assert n * q == -n + n * (q + 1);
    }
  }

  lemma ModUnique(x: nat, n: nat, q: int, r: nat)
    requires n > 0 && r < n && x == n * q + r
    ensures x % n == r && x / n == q
  {
    var d := x / n - q;
    assert x == n * (x / n) + x % n;
    assert n * d == n * (x / n) - n * q;
    assert n * d == r - x % n;
    MulBound(n, d);
  }

  /** Adding multiples of n changes no remainder. */
  lemma ModAdd(x: nat, n: nat, q: nat)
    requires n > 0
    ensures (x + n * q) % n == x % n
  {
    assert x == n * (x / n) + x % n;
    assert n * (x / n) + n * q == n * (x / n + q);
    MulNonNegative(n, q);
    ModUnique(x + n * q, n, x / n + q, x % n);
  }

  lemma MulNonNegative(n: nat, q: nat)
    ensures n * q >= 0
  {
  }

  lemma ModOfMultiple(x: nat, n: nat, m: nat)
    requires n > 0 && m > 0 && n * m > 0
    ensures (x % (n * m)) % n == x % n
  {
    var q := x / (n * m);
    assert x == (n * m) * q + x % (n * m);
    assert (n * m) * q == n * (m * q);
    MulNonNegative(m, q);
    ModAdd(x % (n * m), n, m * q);
  }

  /** Numbers less than n apart have different remainders. */
  lemma ModDistinct(a: nat, b: nat, n: nat)
    requires a < b < a + n
    ensures a % n != b % n
  {
    var d := b / n - a / n;
    assert a == n * (a / n) + a % n && b == n * (b / n) + b % n;
    assert n * d == n * (b / n) - n * (a / n);
    MulBound(n, d);
  }

  /* ---- powers of two ---- */

  function Pow2(k: nat): (p: nat)
    ensures p > 0
  {
    if k == 0 then 1 else 2 * Pow2(k - 1)
  }

  lemma Pow2Next(k: nat)
    ensures Pow2(k + 1) == 2 * Pow2(k)
  {
  }

  lemma DoubledProduct(p: nat, q: nat)
    ensures 2 * (p * q) == (2 * p) * q
  {
  }

  lemma {:induction false} Pow2Add(a: nat, b: nat)
    ensures Pow2(a + b) == Pow2(a) * Pow2(b)
    decreases a
  {
    if a == 0 {
      assert Pow2(a) == 1;
    } else {
      var c, p, q := a - 1, Pow2(a - 1), Pow2(b);
      Pow2Next(c);
      Pow2Next(c + b);
      Pow2Add(c, b);
      hide Pow2;
      assert c + b + 1 == a + b && c + 1 == a;
      DoubledProduct(p, q);
    }
  }

  lemma {:induction false} Pow2Monotone(a: nat, b: nat)
    requires a < b
    ensures 2 * Pow2(a) <= Pow2(b)
    decreases b
  {
    if a < b - 1 {
      Pow2Monotone(a, b - 1);
    }
  }

  const TWO_32: nat := 0x1_0000_0000

  lemma Pow2Of32()
    ensures Pow2(31) == 0x8000_0000 && Pow2(32) == TWO_32
  {
    assert Pow2(8) == 256;
    assert Pow2(16) == 65536;
    assert Pow2(24) == 0x100_0000;
    assert Pow2(31) == 0x8000_0000;
  }

  /** A 32-bit counter shows the low bits of the unbounded count. */
  lemma LowBits(x: nat, k: nat)
    requires k <= 32
    ensures (x % TWO_32) % Pow2(k) == x % Pow2(k)
  {
    Pow2Of32();
    Pow2Add(k, 32 - k);
    ModOfMultiple(x, Pow2(k), Pow2(32 - k));
  }

  /* ---- bitwise and ---- */

  function And(x: nat, y: nat): nat {
    if x == 0 || y == 0 then 0
    else 2 * And(x / 2, y / 2) + (if x % 2 == 1 && y % 2 == 1 then 1 else 0)
  }

  lemma HalfMod(x: nat, h: nat)
    requires h > 0
    ensures x % (2 * h) == 2 * ((x / 2) % h) + x % 2
  {
    var q, r := (x / 2) / h, (x / 2) % h;
    assert x / 2 == h * q + r;
    assert 2 * (h * q) == (2 * h) * q;
    ModUnique(x, 2 * h, q, 2 * r + x % 2);
  }

  /** A mask with one more bit. */
  lemma MaskHalves(h: nat)
    requires h > 0
    ensures (2 * h - 1) / 2 == h - 1 && (2 * h - 1) % 2 == 1
  {
  }

  lemma AndOddMask(x: nat, h: nat)
    requires h > 0
    ensures And(x, 2 * h - 1) == 2 * And(x / 2, h - 1) + x % 2
  {
    MaskHalves(h);
    if x > 0 {
      AndHalves(x, 2 * h - 1);
    }
  }

  lemma AndHalves(x: nat, y: nat)
    requires x > 0 && y > 0
    ensures And(x, y) == 2 * And(x / 2, y / 2) + if x % 2 == 1 && y % 2 == 1 then 1 else 0
  {
  }

  /** Masking with 2^k - 1 is the remainder modulo 2^k. */
  lemma {:induction false} AndMask(x: nat, k: nat)
    ensures And(x, Pow2(k) - 1) == x % Pow2(k)
    decreases k
  {
    if k == 0 {
      assert Pow2(0) == 1;
    } else {
      var j, half := k - 1, x / 2;
      var h := Pow2(j);
      Pow2Next(j);
      AndMask(half, j);
      hide Pow2, And;
      assert Pow2(k) == 2 * h;
      AndOddMask(x, h);
      HalfMod(x, h);
    }
  }

  ghost predicate IsPow2(n: nat) {
    exists k :: n == Pow2(k)
  }

  lemma DoubleIsPow2(h: nat)
    ensures IsPow2(2 * h) <==> IsPow2(h)
  {
    if IsPow2(h) {
      var k: nat :| h == Pow2(k);
      Pow2Next(k);
      assert 2 * h == Pow2(k + 1);
    }
    if IsPow2(2 * h) {
      var k: nat :| 2 * h == Pow2(k);
      assert k > 0;
      Pow2Next(k - 1);
      assert h == Pow2(k - 1);
    }
  }

  lemma OddIsNoPow2(n: nat)
    requires n % 2 == 1 && n > 1
    ensures !IsPow2(n)
  {
    forall k: nat
      ensures n != Pow2(k)
    {
      if k > 0 {
        Pow2Next(k - 1);
      }
    }
  }

  lemma {:induction false} AndPredecessor(n: nat)
    requires n > 0
    ensures And(n, n - 1) == 0 <==> IsPow2(n)
    decreases n
  {
    if n == 1 {
      assert n == Pow2(0);
    } else {
      var h, m := n / 2, n - 1;
      AndHalves(n, m);
      if n % 2 == 0 {
        AndPredecessor(h);
        hide And, IsPow2;
        assert n == 2 * h && m / 2 == h - 1;
        DoubleIsPow2(h);
      } else {
        AndSelf(h);
        OddIsNoPow2(n);
      }
    }
  }

  lemma {:induction false} AndSelf(n: nat)
    ensures And(n, n) == n
    decreases n
  {
    if n > 0 {
      AndSelf(n / 2);
    }
  }
}
