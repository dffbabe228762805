/**
 Shifts and bitwise operations of unsigned machine words, on natural numbers.
 */
module Bits {
  import opened Powers

  /** `x << n` in a word of `width` bits. */
  function ShiftLeft(x: nat, n: nat, width: nat): nat {
    x * Pow(2, n) % Pow(2, width)
  }

  /** `x - y` in a word of `width` bits. */
  function Minus(x: nat, y: nat, width: nat): nat {
    (x - y) % Pow(2, width)
  }

  /** `x | y` */
  function Or(x: nat, y: nat): nat {
    if x == 0 && y == 0 then 0
    else (if x % 2 == 1 || y % 2 == 1 then 1 else 0) + 2 * Or(x / 2, y / 2)
  }

  /** `x & y` */
  function And(x: nat, y: nat): nat {
    if x == 0 || y == 0 then 0
    else (if x % 2 == 1 && y % 2 == 1 then 1 else 0) + 2 * And(x / 2, y / 2)
  }

  lemma {:induction false} OrZero(x: nat)
    ensures Or(x, 0) == x
  {
    if x > 0 { OrZero(x / 2); }
  }

  lemma OrEven(x: nat, y: nat)
    ensures Or(2 * x, y) == y % 2 + 2 * Or(x, y / 2)
  {
  }

  lemma AndOdd(x: nat, m: nat)
    ensures And(x, 2 * m + 1) == x % 2 + 2 * And(x / 2, m)
  {
    assert (2 * m + 1) / 2 == m;
  }

  lemma Twice(a: nat, n: nat)
    requires n > 0
    ensures a * Pow(2, n) == 2 * (a * Pow(2, n - 1))
  {
  }

  /** Words without a common bit are added. */
  lemma {:induction false} OrDisjoint(a: nat, b: nat, n: nat)
    requires b < Pow(2, n)
    ensures Or(a * Pow(2, n), b) == a * Pow(2, n) + b
    decreases n
  {
    hide Or, Pow;
    PowTwice(n);
    if n == 0 {
      OrZero(a);
    } else {
      Twice(a, n);
      OrDisjoint(a, b / 2, n - 1);
      OrEven(a * Pow(2, n - 1), b);
    }
  }

  /** Masking keeps the lower bits. */
  lemma {:induction false} AndMask(x: nat, n: nat)
    ensures And(x, Pow(2, n) - 1) == x % Pow(2, n)
    decreases n
  {
    if n > 0 {
      hide And, Pow;
      var p := Pow(2, n - 1);
      PowTwice(n);
      AndMask(x / 2, n - 1);
      AndOdd(x, p - 1);
      HalfModulus(x, p);
    } else {
      AndNothing(x);
    }
  }

  lemma PowTwice(n: nat)
    ensures Pow(2, 0) == 1 && (n > 0 ==> Pow(2, n) == 2 * Pow(2, n - 1))
  {
  }

  lemma AndNothing(x: nat)
    ensures And(x, Pow(2, 0) - 1) == x % Pow(2, 0)
  {
  }

  lemma HalfModulus(x: nat, p: nat)
    requires p > 0
    ensures x % (2 * p) == x % 2 + 2 * (x / 2 % p)
  {
    var q, r := x / 2 / p, x / 2 % p;
    assert x / 2 == p * q + r;
    assert x == (2 * p) * q + (x % 2 + 2 * r);
    Remainder(x, 2 * p, q, x % 2 + 2 * r);
  }
}
