/**
 Choosing a cached power of ten for a binary exponent, and how exact a product with it is.
 */
module CachedPowers {
  import opened Powers
  import opened DiyFp
  import opened CachedPowerTable
  import opened Words

  const K_ALPHA: int := -60
  const K_GAMMA: int := -32

  /** Integer division that truncates toward zero. */
  function Truncated(a: int, b: int): int
    requires b > 0
  {
    if a >= 0 then a / b else -((-a) / b)
  }

  /** The decimal exponent of a row, and its binary exponent by the fixed-point logarithm of 10. */
  lemma RowExponents(index: nat)
    requires index < 79
    ensures RowFits(index)
  {
    hide RowFits;
    if index < 20 {
      RowsTo19(index);
    } else if index < 40 {
      RowsTo39(index);
    } else if index < 60 {
      RowsTo59(index);
    } else {
      RowsTo78(index);
    }
  }

  predicate RowFits(index: nat)
    requires index < 79
  {
    var c := Row(index);
    c.f >= TWO_63 && c.k == 8 * index - 300 && c.e == (c.k * 217706) / 65536 - 63
  }

  lemma RowsTo19(index: nat)
    requires 0 <= index <= 19
    ensures RowFits(index)
  {
  }

  lemma RowsTo39(index: nat)
    requires 20 <= index <= 39
    ensures RowFits(index)
  {
  }

  lemma RowsTo59(index: nat)
    requires 40 <= index <= 59
    ensures RowFits(index)
  {
  }

  lemma RowsTo78(index: nat)
    requires 60 <= index <= 78
    ensures RowFits(index)
  {
  }

  /** The index that the integer formula computes for a binary exponent. */
  function RowIndex(e: int): int {
    var f := K_ALPHA - e - 1;
    var k := Truncated(f * 78913, 0x40000) + (if f > 0 then 1 else 0);
    Truncated(300 + k + 7, 8)
  }

  /** `get_cached_power_for_binary_exponent`: on these exponents the index lies in the table
      and the product with a number of this exponent ends up between alpha and gamma. */
  function ForBinaryExponent(e: int): (c: Cached)
    requires -1137 <= e <= 964
    ensures 0 <= RowIndex(e) < 79 && c == Row(RowIndex(e))
    ensures K_ALPHA <= c.e + e + 64 <= K_GAMMA
    ensures c.f >= TWO_63 && Accurate(c)
  {
    IndexInTable(e);
    RowExponents(RowIndex(e));
    ExponentInRange(e);
    TableIsAccurate(RowIndex(e));
    Row(RowIndex(e))
  }

  lemma IndexInTable(e: int)
    requires -1137 <= e <= 964
    ensures 0 <= RowIndex(e) < 79
  {
  }

  lemma ExponentInRange(e: int)
    requires -1137 <= e <= 964
    ensures var k := 8 * RowIndex(e) - 300;
            && K_ALPHA <= (k * 217706) / 65536 - 63 + e + 64 <= K_GAMMA
            && (k > -300 ==> ((k - 8) * 217706) / 65536 - 63 + e + 64 < K_ALPHA)
  {
    IndexInTable(e);
    ExponentOfRow(e, RowIndex(e));
  }

  /** Row by row: the exponents that choose the row, and where they lead. */
  lemma ExponentOfRow(e: int, index: int)
    requires -1137 <= e <= 964 && 0 <= index < 79 && RowIndex(e) == index
    ensures var k := 8 * index - 300;
            && K_ALPHA <= (k * 217706) / 65536 - 63 + e + 64 <= K_GAMMA
            && (k > -300 ==> ((k - 8) * 217706) / 65536 - 63 + e + 64 < K_ALPHA)
  {
    hide RowIndex;
    if index < 10 {
      ExponentOfRowsTo9(e, index);
    } else if index < 20 {
      ExponentOfRowsTo19(e, index);
    } else if index < 30 {
      ExponentOfRowsTo29(e, index);
    } else if index < 40 {
      ExponentOfRowsTo39(e, index);
    } else if index < 50 {
      ExponentOfRowsTo49(e, index);
    } else if index < 60 {
      ExponentOfRowsTo59(e, index);
    } else if index < 70 {
      ExponentOfRowsTo69(e, index);
    } else {
      ExponentOfRowsTo78(e, index);
    }
  }

  lemma ExponentOfRowsTo9(e: int, index: int)
    requires -1137 <= e <= 964 && 0 <= index < 10 && RowIndex(e) == index
    ensures var k := 8 * index - 300;
            && K_ALPHA <= (k * 217706) / 65536 - 63 + e + 64 <= K_GAMMA
            && (k > -300 ==> ((k - 8) * 217706) / 65536 - 63 + e + 64 < K_ALPHA)
  {
    match index
    case 0 => case 1 => case 2 => case 3 => case 4 => case 5 => case 6 => case 7 => case 8 => case _ =>
  }

  lemma ExponentOfRowsTo19(e: int, index: int)
    requires -1137 <= e <= 964 && 10 <= index < 20 && RowIndex(e) == index
    ensures var k := 8 * index - 300;
            && K_ALPHA <= (k * 217706) / 65536 - 63 + e + 64 <= K_GAMMA
            && (k > -300 ==> ((k - 8) * 217706) / 65536 - 63 + e + 64 < K_ALPHA)
  {
    match index
    case 10 => case 11 => case 12 => case 13 => case 14 => case 15 => case 16 => case 17 => case 18 => case _ =>
  }

  lemma ExponentOfRowsTo29(e: int, index: int)
    requires -1137 <= e <= 964 && 20 <= index < 30 && RowIndex(e) == index
    ensures var k := 8 * index - 300;
            && K_ALPHA <= (k * 217706) / 65536 - 63 + e + 64 <= K_GAMMA
            && (k > -300 ==> ((k - 8) * 217706) / 65536 - 63 + e + 64 < K_ALPHA)
  {
    match index
    case 20 => case 21 => case 22 => case 23 => case 24 => case 25 => case 26 => case 27 => case 28 => case _ =>
  }

  lemma ExponentOfRowsTo39(e: int, index: int)
    requires -1137 <= e <= 964 && 30 <= index < 40 && RowIndex(e) == index
    ensures var k := 8 * index - 300;
            && K_ALPHA <= (k * 217706) / 65536 - 63 + e + 64 <= K_GAMMA
            && (k > -300 ==> ((k - 8) * 217706) / 65536 - 63 + e + 64 < K_ALPHA)
  {
    match index
    case 30 => case 31 => case 32 => case 33 => case 34 => case 35 => case 36 => case 37 => case 38 => case _ =>
  }

  lemma ExponentOfRowsTo49(e: int, index: int)
    requires -1137 <= e <= 964 && 40 <= index < 50 && RowIndex(e) == index
    ensures var k := 8 * index - 300;
            && K_ALPHA <= (k * 217706) / 65536 - 63 + e + 64 <= K_GAMMA
            && (k > -300 ==> ((k - 8) * 217706) / 65536 - 63 + e + 64 < K_ALPHA)
  {
    match index
    case 40 => case 41 => case 42 => case 43 => case 44 => case 45 => case 46 => case 47 => case 48 => case _ =>
  }

  lemma ExponentOfRowsTo59(e: int, index: int)
    requires -1137 <= e <= 964 && 50 <= index < 60 && RowIndex(e) == index
    ensures var k := 8 * index - 300;
            && K_ALPHA <= (k * 217706) / 65536 - 63 + e + 64 <= K_GAMMA
            && (k > -300 ==> ((k - 8) * 217706) / 65536 - 63 + e + 64 < K_ALPHA)
  {
    match index
    case 50 => case 51 => case 52 => case 53 => case 54 => case 55 => case 56 => case 57 => case 58 => case _ =>
  }

  lemma ExponentOfRowsTo69(e: int, index: int)
    requires -1137 <= e <= 964 && 60 <= index < 70 && RowIndex(e) == index
    ensures var k := 8 * index - 300;
            && K_ALPHA <= (k * 217706) / 65536 - 63 + e + 64 <= K_GAMMA
            && (k > -300 ==> ((k - 8) * 217706) / 65536 - 63 + e + 64 < K_ALPHA)
  {
    match index
    case 60 => case 61 => case 62 => case 63 => case 64 => case 65 => case 66 => case 67 => case 68 => case _ =>
  }

  lemma ExponentOfRowsTo78(e: int, index: int)
    requires -1137 <= e <= 964 && 70 <= index < 79 && RowIndex(e) == index
    ensures var k := 8 * index - 300;
            && K_ALPHA <= (k * 217706) / 65536 - 63 + e + 64 <= K_GAMMA
            && (k > -300 ==> ((k - 8) * 217706) / 65536 - 63 + e + 64 < K_ALPHA)
  {
    match index
    case 70 => case 71 => case 72 => case 73 => case 74 => case 75 => case 76 => case 77 => case _ =>
  }

  /** Of all rows that bring the product up to alpha it is the first. */
  lemma FirstRow(e: int, index: nat)
    requires -1137 <= e <= 964 && index < 79 && Row(index).e + e + 64 >= -60
    ensures ForBinaryExponent(e).k <= Row(index).k == 8 * index - 300
    ensures ForBinaryExponent(e).e + e + 64 >= -60
  {
    hide RowIndex, Row, Accurate;
    IndexInTable(e);
    RowExponents(index);
    RowExponents(RowIndex(e));
    ExponentInRange(e);
  }

  /** The formula works on no larger range: outside it, for exponents up to 1500 in size,
      one of the assertions behind the formula fails. */
  lemma OnlyTheseExponents(e: int)
    requires -1500 <= e <= 1500
    ensures -1137 <= e <= 964 <==>
            0 <= RowIndex(e) < 79 && K_ALPHA <= Row(RowIndex(e)).e + e + 64 <= K_GAMMA
  {
    if 0 <= RowIndex(e) < 79 { RowExponents(RowIndex(e)); }
    if -1137 <= e <= 964 {
      IndexInTable(e);
      ExponentInRange(e);
    }
  }

  /** The exact product x * 10^k, measured in the last place of the product with row c. */
  function Exact(x: Diy, c: Cached): real {
    (x.f as real) * (Ten(c.k) * Two(-c.e)) / UNIT
  }

  /** A rounded product with a rounded power of ten is off by less than one unit:
      it differs by less than 1 from the exact `x * 10^k` measured in its last place. */
  lemma ProductError(x: Diy, c: Cached)
    requires Accurate(c)
    ensures -1.0 < Mul(x, Diy(c.f, c.e)).f as real - Exact(x, c) < 1.0
  {
    hide Power, Two, Ten, Mul, Accurate;
    RowInUnits(c);
    MulError(x, Diy(c.f, c.e));
    ErrorSum(x.f as real, c.f as real, Ten(c.k) * Two(-c.e), Mul(x, Diy(c.f, c.e)).f as real);
  }

  /** The accuracy of a row, measured in its last place. */
  lemma RowInUnits(c: Cached)
    requires Accurate(c)
    ensures -1.0 <= 2.0 * (c.f as real - Ten(c.k) * Two(-c.e)) <= 1.0
  {
    hide Power;
    var u, v, t := Two(c.e), Two(-c.e), Ten(c.k);
    assert u * v == 1.0 by { TwoAdd(c.e, -c.e); PowerZero(); }
    InUnits(c.f as real, t, u, v);
  }

  lemma PowerZero()
    ensures Two(0) == 1.0
  {
  }

  lemma InUnits(f: real, t: real, u: real, v: real)
    requires u > 0.0 && v > 0.0 && u * v == 1.0
    requires -u <= 2.0 * (f * u - t) <= u
    ensures -1.0 <= 2.0 * (f - t * v) <= 1.0
  {
    ScaleBounds(2.0 * (f * u - t), u, v);
    assert (2.0 * (f * u - t)) * v == 2.0 * ((f * u) * v - t * v);
    assert (f * u) * v == f * (u * v);
  }

  lemma MulError(x: Diy, y: Diy)
    ensures -HALF_UNIT <= (Mul(x, y).f as real) * UNIT - (x.f as real) * (y.f as real) <= HALF_UNIT
  {
    hide Mul;
    RoundingError(x.f * y.f, Mul(x, y).f);
    ProductAsReal(x.f, y.f);
  }

  lemma RoundingError(p: nat, h: nat)
    requires h == (p + TWO_63) / TWO_64
    ensures -HALF_UNIT <= (h as real) * UNIT - (p as real) <= HALF_UNIT
  {
    assert -TWO_63 <= h * TWO_64 - p <= TWO_63;
    ProductAsReal(h, TWO_64);
  }

  const UNIT: real := 18446744073709551616.0
  const HALF_UNIT: real := 9223372036854775808.0

  lemma ErrorSum(x: real, f: real, t: real, h: real)
    requires 0.0 <= x <= UNIT - 1.0
    requires -1.0 <= 2.0 * (f - t) <= 1.0
    requires -HALF_UNIT <= h * UNIT - x * f <= HALF_UNIT
    ensures -1.0 < h - x * t / UNIT < 1.0
  {
    var d := f - t;
    TimesDifference(x, f, t);
    HalfOf(x, d);
    AddErrors(h * UNIT, x * f, x * t, x * d, x);
    WithinUnit(h, x * t);
  }

  lemma TimesDifference(x: real, f: real, t: real)
    ensures x * f == x * t + x * (f - t)
  {
  }

  lemma HalfOf(x: real, d: real)
    requires x >= 0.0 && -1.0 <= 2.0 * d <= 1.0
    ensures -x <= 2.0 * (x * d) <= x
  {
    if x > 0.0 { ScaleBounds(2.0 * d, 1.0, x); }
    Associate(2.0, d, x);
  }

  lemma AddErrors(h: real, p: real, y: real, d: real, x: real)
    requires -HALF_UNIT <= h - p <= HALF_UNIT && p == y + d && -x <= 2.0 * d <= x && x <= UNIT - 1.0
    ensures -UNIT < h - y < UNIT
  {
  }

  lemma WithinUnit(h: real, y: real)
    requires -UNIT < h * UNIT - y < UNIT
    ensures -1.0 < h - y / UNIT < 1.0
  {
  }
}
