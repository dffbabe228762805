/**
 Powers with natural exponents, and with integer exponents as reals.
 */
module Powers {

  function Pow(b: nat, n: nat): (r: nat)
    ensures b > 0 ==> r > 0
  {
    if n == 0 then 1 else
      assert b > 0 ==> b * Pow(b, n - 1) > 0;
      b * Pow(b, n - 1)
  }

  /** Multiplication by a natural number is monotonic. */
  lemma Mono(x: nat, a: int, b: int)
    requires a <= b
    ensures x * a <= x * b && a * x <= b * x
  {
  }

  /** Quotient and remainder are determined. */
  lemma Remainder(x: int, m: nat, q: int, r: nat)
    requires m > 0 && r < m && x == m * q + r
    ensures x % m == r && x / m == q
  {
    var d := x / m - q;
    assert x == m * (x / m) + x % m;
    assert m * d == r - x % m;
    if d >= 1 { Mono(m, 1, d); }
    if d <= -1 { Mono(m, d, -1); }
  }

  lemma {:induction false} PowAdd(b: nat, m: nat, n: nat)
    ensures Pow(b, m + n) == Pow(b, m) * Pow(b, n)
  {
    hide Pow;
    PowFirst(b, m);
    PowFirst(b, m + n);
    if m > 0 {
      PowAdd(b, m - 1, n);
      OneFactorMore(b, Pow(b, m - 1), Pow(b, n), Pow(b, m - 1 + n), Pow(b, m), Pow(b, m + n));
    }
  }

  lemma PowFirst(b: nat, n: nat)
    ensures Pow(b, 0) == 1 && (n > 0 ==> Pow(b, n) == b * Pow(b, n - 1))
  {
  }

  lemma OneFactorMore(b: nat, x: nat, y: nat, z: nat, x': nat, z': nat)
    requires z == x * y && x' == b * x && z' == b * z
    ensures z' == x' * y
  {
    assert b * (x * y) == (b * x) * y;
  }

  lemma PowZero(b: nat)
    ensures Pow(b, 0) == 1
  {
  }

  lemma {:induction false} PowGrows(b: nat, m: nat, n: nat)
    requires b > 1 && m < n
    ensures Pow(b, m) < Pow(b, n)
    decreases n
  {
    var x := Pow(b, n - 1);
    assert b * x > x;
    if m < n - 1 { PowGrows(b, m, n - 1); }
  }

  /** `b` to an integer power. */
  function Power(b: nat, e: int): (r: real)
    requires b > 0
    ensures r > 0.0
  {
    if e >= 0 then Pow(b, e) as real else Reciprocal(Pow(b, -e))
  }

  function Reciprocal(x: nat): (r: real)
    requires x > 0
    ensures r > 0.0
  {
    1.0 / (x as real)
  }

  lemma PowerIs(b: nat, e: int)
    requires b > 0
    ensures e >= 0 ==> Power(b, e) == Pow(b, e) as real
    ensures e < 0 ==> Power(b, e) == Reciprocal(Pow(b, -e))
  {
  }

  function Two(e: int): (r: real)
    ensures r > 0.0
  {
    Power(2, e)
  }

  function Ten(e: int): (r: real)
    ensures r > 0.0
  {
    Power(10, e)
  }

  lemma ProductAsReal(x: nat, y: nat)
    ensures (x * y) as real == (x as real) * (y as real)
  {
  }

  lemma Associate(x: real, y: real, z: real)
    ensures (x * y) * z == x * (y * z)
  {
  }

  lemma Inverse(x: real)
    requires x != 0.0
    ensures (1.0 / x) * x == 1.0
  {
  }

  /** 1 / (q r) times q. */
  lemma InverseOfProduct(q: real, r: real)
    requires q > 0.0 && r > 0.0 && q * r > 0.0
    ensures (1.0 / (q * r)) * q == 1.0 / r
  {
    var x := 1.0 / (q * r);
    Inverse(q * r);
    Associate(x, q, r);
    OnlyInverse(x * q, r);
  }

  lemma OnlyInverse(x: real, r: real)
    requires r != 0.0 && x * r == 1.0
    ensures x == 1.0 / r
  {
  }

  /** 1 / p times (p r). */
  lemma InverseCancels(p: real, r: real)
    requires p != 0.0
    ensures (1.0 / p) * (p * r) == r
  {
    Inverse(p);
    Associate(1.0 / p, p, r);
  }

  /** Multiplying a power up. */
  lemma PowerUp(b: nat, e: int, n: nat)
    requires b > 0
    ensures Power(b, e) * (Pow(b, n) as real) == Power(b, e + n)
  {
    hide Pow, Power, Reciprocal;
    if e >= 0 {
      PowerUpWhole(b, e, n);
    } else if e + n < 0 {
      PowerUpFraction(b, e, n);
    } else {
      PowerUpAcross(b, e, n);
    }
  }

  lemma PowerUpWhole(b: nat, e: int, n: nat)
    requires b > 0 && e >= 0
    ensures Power(b, e) * (Pow(b, n) as real) == Power(b, e + n)
  {
    hide Pow, Power, Reciprocal;
    PowAdd(b, e, n);
    ProductOfPowers(Pow(b, e) as real, Pow(b, e), Pow(b, n), Pow(b, e + n));
    PowerIs(b, e);
    PowerIs(b, e + n);
  }

  lemma PowerUpFraction(b: nat, e: int, n: nat)
    requires b > 0 && e < 0 && e + n < 0
    ensures Power(b, e) * (Pow(b, n) as real) == Power(b, e + n)
  {
    hide Pow, Power, Reciprocal;
    PowAdd(b, n, -e - n);
    ReciprocalOfProduct(Reciprocal(Pow(b, -e)), Pow(b, -e), Pow(b, n), Pow(b, -e - n));
    PowerIs(b, e);
    PowerIs(b, e + n);
  }

  lemma PowerUpAcross(b: nat, e: int, n: nat)
    requires b > 0 && e < 0 && e + n >= 0
    ensures Power(b, e) * (Pow(b, n) as real) == Power(b, e + n)
  {
    hide Pow, Power, Reciprocal;
    PowAdd(b, -e, e + n);
    ReciprocalCancels(Reciprocal(Pow(b, -e)), Pow(b, -e), Pow(b, e + n), Pow(b, n));
    PowerIs(b, e);
    PowerIs(b, e + n);
  }

  lemma ProductOfPowers(x: real, p: nat, q: nat, r: nat)
    requires x == p as real && r == p * q
    ensures x * (q as real) == r as real
  {
    ProductAsReal(p, q);
  }

  lemma ReciprocalOfProduct(x: real, p: nat, q: nat, r: nat)
    requires q > 0 && r > 0 && p == q * r && p > 0 && x == Reciprocal(p)
    ensures x * (q as real) == Reciprocal(r)
  {
    ProductAsReal(q, r);
    InverseOfProduct(q as real, r as real);
  }

  lemma ReciprocalCancels(x: real, p: nat, r: nat, q: nat)
    requires p > 0 && q == p * r && x == Reciprocal(p)
    ensures x * (q as real) == r as real
  {
    ProductAsReal(p, r);
    InverseCancels(p as real, r as real);
  }

  /** Dividing by what was multiplied up. */
  lemma DividedBy(x: real, y: real, z: nat)
    requires z > 0 && x * (z as real) == y
    ensures x == y * Reciprocal(z)
  {
    Associate(x, z as real, 1.0 / (z as real));
    Inverse(z as real);
  }

  lemma PowerAdd(b: nat, m: int, n: int)
    requires b > 0
    ensures Power(b, m + n) == Power(b, m) * Power(b, n)
  {
    hide Pow, Power, Reciprocal;
    PowerIs(b, n);
    if n >= 0 {
      PowerUp(b, m, n);
    } else {
      PowerUp(b, m + n, -n);
      DividedBy(Power(b, m + n), Power(b, m), Pow(b, -n));
    }
  }

  lemma TwoAdd(m: int, n: int)
    ensures Two(m + n) == Two(m) * Two(n)
  {
    hide Power;
    PowerAdd(2, m, n);
  }

  lemma TenAdd(m: int, n: int)
    ensures Ten(m + n) == Ten(m) * Ten(n)
  {
    hide Power;
    PowerAdd(10, m, n);
  }

  /** The powers of two that the word sizes and bit fields use. */
  lemma PowersOfTwo()
    ensures Pow(2, 4) == 16 && Pow(2, 5) == 32 && Pow(2, 9) == 512 && Pow(2, 10) == 1024 && Pow(2, 12) == 4096
    ensures Pow(2, 17) == 131072 && Pow(2, 22) == 4194304 && Pow(2, 32) == 0x1_0000_0000
    ensures Pow(2, 42) == 0x400_0000_0000 && Pow(2, 52) == 0x10_0000_0000_0000 && Pow(2, 60) == 0x1000_0000_0000_0000
    ensures Pow(2, 63) == 0x8000_0000_0000_0000 && Pow(2, 64) == 0x1_0000_0000_0000_0000
  {
    hide Pow;
    FirstPowersOfTwo();
    PowAdd(2, 4, 5);
    PowAdd(2, 5, 5);
    PowAdd(2, 10, 2);
    PowAdd(2, 12, 5);
    PowAdd(2, 17, 5);
    PowAdd(2, 22, 10);
    PowAdd(2, 32, 10);
    PowAdd(2, 42, 10);
    PowAdd(2, 60, 3);
    PowAdd(2, 60, 4);
    PowAdd(2, 42, 18);
    PowAdd(2, 9, 9);
  }

  lemma FirstPowersOfTwo()
    ensures Pow(2, 1) == 2 && Pow(2, 2) == 4 && Pow(2, 3) == 8 && Pow(2, 4) == 16 && Pow(2, 5) == 32
  {
    assert Pow(2, 2) == 2 * Pow(2, 1);
    assert Pow(2, 3) == 2 * Pow(2, 2);
    assert Pow(2, 4) == 2 * Pow(2, 3);
  }
}
