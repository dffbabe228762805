/**
 Grisu2: the decimal digits of a double.  What it produces lies strictly between the two
 midpoints around the double, so that reading it gives the same double again.
 */
module Grisu2 {
  import opened Powers
  import opened DiyFp
  import opened Digits
  import opened Boundaries
  import opened CachedPowerTable
  import opened CachedPowers
  import opened DigitGen
  import opened Words
  import opened Buffers

  // ----- distances after the multiplication -------------------------------------

  /** The significand of a product. */
  function Scaled(f: nat, c: nat): nat {
    (f * c + TWO_63) / TWO_64
  }

  lemma MulIsScaled(x: Diy, c: Diy)
    ensures Mul(x, c).f == Scaled(x.f, c.f)
  {
    hide Mul;
  }

  /** Rounded products keep most of the distance of their factors. */
  lemma ProductDistance(x: nat, y: nat, c: nat, g: nat)
    requires x + g <= y && c >= TWO_63
    ensures 2 * (Scaled(y, c) - Scaled(x, c)) >= g - 2
  {
    Mono(c, x + g, y);
    assert (x + g) * c == x * c + g * c;
    Mono(g, TWO_63, c);
    QuotientGap(x * c, y * c, g);
  }

  lemma QuotientGap(a: nat, b: nat, g: nat)
    requires a + g * TWO_63 <= b
    ensures 2 * ((b + TWO_63) / TWO_64 - (a + TWO_63) / TWO_64) >= g - 2
  {
  }

  /** After the multiplication and the unit taken off on both sides the interval is still at
      least 10^-16 of its upper end: 17 digits suffice. */
  lemma SeventeenDigits(minus: nat, plus: nat, c: nat)
    requires minus + 1536 <= plus && plus <= 0x20_0000_0000_0000 * (plus - minus) && c >= TWO_63
    ensures var lower, upper := Scaled(minus, c) + 1, Scaled(plus, c) - 1;
            lower < upper && MaxLength(lower, upper) == 17
  {
    var g := plus - minus;
    assert plus * c == minus * c + g * c;
    Mono(c, plus, 0x20_0000_0000_0000 * g);
    assert (0x20_0000_0000_0000 * g) * c == 0x20_0000_0000_0000 * (g * c);
    Mono(g, TWO_63, c);
    WidthSuffices(minus * c, plus * c, g * c);
  }

  lemma WidthSuffices(a: nat, b: nat, w: nat)
    requires b == a + w && b <= 0x20_0000_0000_0000 * w && w >= 1536 * TWO_63
    ensures var lower, upper := (a + TWO_63) / TWO_64 + 1, (b + TWO_63) / TWO_64 - 1;
            lower < upper && upper <= 10000000000000000 * (upper - lower)
  {
  }

  /** The upper end has an integral part. */
  lemma UpperIsLarge(f: nat, c: nat)
    requires f >= TWO_63 && c >= TWO_63
    ensures Scaled(f, c) - 1 >= TWO_60
  {
    Mono(c, TWO_63, f);
    Mono(TWO_63, TWO_63, c);
  }

  // ----- from units to real numbers ----------------------------------------------

  /** A decimal number in the interval, as real numbers. */
  lemma InsideAsReals(i: Interval, d: nat, n: int)
    requires Inside(i, d, n)
    ensures i.minus as real <= ((d as real) * Ten(n)) * (i.one as real) <= i.plus as real
  {
    hide Pow, Power;
    if n >= 0 {
      InsideWhole(i.minus, d, i.one, i.plus, Pow(10, n));
      PowerIs(10, n);
    } else {
      InsideFraction(i.minus, d, i.one, i.plus, Pow(10, -n));
      PowerIs(10, n);
    }
  }

  lemma InsideWhole(minus: nat, d: nat, one: nat, plus: nat, p: nat)
    requires minus * 1 <= d * (p * one) <= plus * 1
    ensures minus as real <= ((d as real) * (p as real)) * (one as real) <= plus as real
  {
    ProductAsReal(p, one);
    ProductAsReal(d, p * one);
    Associate(d as real, p as real, one as real);
  }

  lemma InsideFraction(minus: nat, d: nat, one: nat, plus: nat, p: nat)
    requires p > 0 && minus * p <= d * one <= plus * p
    ensures minus as real <= ((d as real) * Reciprocal(p)) * (one as real) <= plus as real
  {
    ProductAsReal(minus, p);
    ProductAsReal(plus, p);
    ProductAsReal(d, one);
    Divide(minus as real, (d as real) * (one as real), plus as real, p as real);
    Rearrange(d as real, Reciprocal(p), one as real);
  }

  lemma Divide(x: real, y: real, z: real, p: real)
    requires p > 0.0 && x * p <= y <= z * p
    ensures x <= y * (1.0 / p) <= z
  {
    Inverse(p);
    TimesInverse(x, y, z, p, 1.0 / p);
  }

  lemma TimesInverse(x: real, y: real, z: real, p: real, q: real)
    requires p > 0.0 && q > 0.0 && q * p == 1.0 && x * p <= y <= z * p
    ensures x <= y * q <= z
  {
    ScaleUp(x * p, y, q);
    ScaleUp(y, z * p, q);
    Associate(x, p, q);
    Associate(z, p, q);
  }

  lemma ScaleUp(x: real, y: real, q: real)
    requires x <= y && q >= 0.0
    ensures x * q <= y * q
  {
  }

  lemma ScaleUpStrictly(x: real, y: real, q: real)
    requires x < y && q > 0.0
    ensures x * q < y * q
  {
  }

  lemma Rearrange(x: real, y: real, z: real)
    ensures (x * y) * z == (x * z) * y
  {
  }

  /** The exact product x * 10^k in units of the last place, brought back to x. */
  lemma ExactBack(x: Diy, c: Cached)
    ensures Exact(x, c) * (Two(x.e + c.e + 64) * Ten(-c.k)) == x.Value()
  {
    hide Power, Two, Ten;
    TenAdd(c.k, -c.k);
    TwoAdd(-c.e, x.e + c.e);
    TwoAdd(x.e + c.e, 64);
    Ones();
    Undo(x.f as real, Ten(c.k), Ten(-c.k), Two(-c.e), Two(x.e + c.e), Two(x.e + c.e + 64), Two(x.e));
  }

  lemma Ones()
    ensures Ten(0) == 1.0 && Two(0) == 1.0 && Two(64) == UNIT
  {
    hide Pow;
    PowersOfTwo();
    PowZero(2);
    PowZero(10);
  }

  lemma Undo(f: real, a: real, a': real, b: real, t: real, u: real, m: real)
    requires a * a' == 1.0 && b * t == m && u == t * UNIT
    ensures (f * (a * b) / UNIT) * (u * a') == f * m
  {
  }

  /** A decimal number between the shrunken ends lies strictly between the true ones. */
  lemma StrictlyBetween(minus: Diy, plus: Diy, c: Cached, d: nat, n: int, i: Interval)
    requires Accurate(c) && minus.e == plus.e && -60 <= plus.e + c.e + 64 <= -32
    requires i.minus == Mul(minus, Diy(c.f, c.e)).f + 1 && i.plus + 1 == Mul(plus, Diy(c.f, c.e)).f
    requires i.one == Pow(2, -(plus.e + c.e + 64)) && Inside(i, d, n)
    ensures minus.Value() < (d as real) * Ten(n - c.k) < plus.Value()
  {
    hide Pow, Power, Two, Ten, Mul, Accurate, Diy.Value, Inside, Exact;
    var e := plus.e + c.e + 64;
    var y := ((d as real) * Ten(n)) * Two(-e);
    BetweenExact(minus, plus, c, d, n, i, y);
    DecimalBack(d, n, c.k, e);
    ExactBack(minus, c);
    ExactBack(plus, c);
    ScaleUpStrictly(Exact(minus, c), y, Two(e) * Ten(-c.k));
    ScaleUpStrictly(y, Exact(plus, c), Two(e) * Ten(-c.k));
  }

  /** The same between the exact products. */
  lemma BetweenExact(minus: Diy, plus: Diy, c: Cached, d: nat, n: int, i: Interval, y: real)
    requires Accurate(c) && minus.e == plus.e && -60 <= plus.e + c.e + 64 <= -32
    requires i.minus == Mul(minus, Diy(c.f, c.e)).f + 1 && i.plus + 1 == Mul(plus, Diy(c.f, c.e)).f
    requires i.one == Pow(2, -(plus.e + c.e + 64)) && Inside(i, d, n)
    requires y == ((d as real) * Ten(n)) * Two(-(plus.e + c.e + 64))
    ensures Exact(minus, c) < y < Exact(plus, c)
  {
    hide Pow, Power, Two, Ten, Mul, Accurate, Diy.Value, Inside, Exact;
    ProductError(minus, c);
    ProductError(plus, c);
    InsideAsReals(i, d, n);
    OneIsTwo(plus.e + c.e + 64);
  }

  /** A decimal number in units of the last place, brought back. */
  lemma DecimalBack(d: nat, n: int, k: int, e: int)
    ensures (((d as real) * Ten(n)) * Two(-e)) * (Two(e) * Ten(-k)) == (d as real) * Ten(n - k)
  {
    hide Pow, Power, Two, Ten;
    TenAdd(n, -k);
    TwoAdd(-e, e);
    Ones();
    Collapse(d as real, Ten(n), Two(-e), Two(e), Ten(-k));
  }

  lemma OneIsTwo(e: int)
    requires e < 0
    ensures Pow(2, -e) as real == Two(-e)
  {
  }

  lemma Collapse(d: real, t: real, y: real, y': real, t': real)
    requires y * y' == 1.0
    ensures ((d * t) * y) * (y' * t') == d * (t * t')
  {
    var x := d * t;
    assert (x * y) * (y' * t') == (x * (y * y')) * t';
    Associate(d, t, t');
  }

  // ----- the algorithm --------------------------------------------------------------

  /** What the digits are generated from: the products with the cached power of ten, and the
      ends moved inwards by one unit. */
  function Shrunken(b: Bounds): Interval
    requires WellPlaced(b)
  {
    var cached := ForBinaryExponent(b.plus.e);
    var c := Diy(cached.f, cached.e);
    ProductsPlaced(b.minus, b.w, b.plus, c);
    Interval(Mul(b.minus, c).f + 1, Mul(b.w, c).f, Mul(b.plus, c).f - 1, Pow(2, -(b.plus.e + c.e + 64)))
  }

  /** d * 10^e lies between the shrunken ends, no multiple of 10^e there is nearer to the
      scaled number, and no multiple of a larger power of ten lies there. */
  ghost predicate Best(b: Bounds, d: nat, e: int)
    requires WellPlaced(b)
  {
    var n := e + ForBinaryExponent(b.plus.e).k;
    Nearest(Shrunken(b), d, n) && Shortest(Shrunken(b), n)
  }

  /** `grisu2` for a number with its boundaries; the digits are written from `first` on.  They
      are as short as possible and as near as possible between the shrunken ends, and so lie
      strictly between the true ones. */
  method DigitsBetween(buf: array<char>, first: nat, mMinus: Diy, v: Diy, mPlus: Diy)
    returns (end: nat, decimalExponent: int)
    requires WellPlaced(Bounds(v, mMinus, mPlus))
    requires buf.Length >= first + 17
    modifies buf
    ensures first < end <= first + 17 && OnlyChanged(old(buf[..]), buf[..], first, end)
    ensures buf[first] != '0' && AllDigits(buf[..][first..end])
    ensures mMinus.Value() < (Number(buf[..][first..end]) as real) * Ten(decimalExponent) < mPlus.Value()
    ensures Best(Bounds(v, mMinus, mPlus), Number(buf[..][first..end]), decimalExponent)
  {
    hide Diy.Value, Accurate, Pow, Number, Nearest, Shortest, MaxLength, Mul, Ten, OnlyChanged, AllDigits, Best;
    var cached := ForBinaryExponent(mPlus.e);
    var c := Diy(cached.f, cached.e);
    var w, wMinus, wPlus := Mul(v, c), Mul(mMinus, c), Mul(mPlus, c);
    ProductsPlaced(mMinus, v, mPlus, c);
    var lower, upper := Diy(wMinus.f + 1, wMinus.e), Diy(wPlus.f - 1, wPlus.e);
    end, decimalExponent := Generate(buf, first, -cached.k, lower, w, upper);
    DigitsAreBest(Bounds(v, mMinus, mPlus), Number(buf[..][first..end]), decimalExponent);
  }

  lemma DigitsAreBest(b: Bounds, d: nat, e: int)
    requires WellPlaced(b)
    requires var n := e + ForBinaryExponent(b.plus.e).k; Nearest(Shrunken(b), d, n) && Shortest(Shrunken(b), n)
    ensures Best(b, d, e) && b.minus.Value() < (d as real) * Ten(e) < b.plus.Value()
  {
    hide Diy.Value, Accurate, Pow, Inside, Shortest, Mul, Ten;
    var cached := ForBinaryExponent(b.plus.e);
    StrictlyBetween(b.minus, b.plus, cached, d, e + cached.k, Shrunken(b));
  }

  /** So they do not end in zero. */
  lemma BestIsNeeded(b: Bounds, s: string, e: int)
    requires WellPlaced(b) && s != "" && AllDigits(s) && Best(b, Number(s), e)
    ensures s[|s| - 1] != '0'
  {
    hide Nearest, Shortest, Number, Shrunken;
    ShortestIsNeeded(Shrunken(b), s, e + ForBinaryExponent(b.plus.e).k);
  }

  /** Where the three products lie. */
  lemma ProductsPlaced(minus: Diy, v: Diy, plus: Diy, c: Diy)
    requires WellPlaced(Bounds(v, minus, plus)) && c.f >= TWO_63 && -60 <= plus.e + c.e + 64 <= -32
    ensures var lower, w, upper := Mul(minus, c).f + 1, Mul(v, c).f, Mul(plus, c).f - 1;
            && 0 < lower <= w <= upper < TWO_64 && lower < upper
            && upper >= Pow(2, -(plus.e + c.e + 64)) && MaxLength(lower, upper) == 17
  {
    hide Mul, Pow, MaxLength, Scaled;
    MulIsScaled(minus, c);
    MulIsScaled(v, c);
    MulIsScaled(plus, c);
    ProductsApart(minus.f, v.f, plus.f, c.f);
    SeventeenDigits(minus.f, plus.f, c.f);
    UpperIsLarge(plus.f, c.f);
    OneInRange(-(plus.e + c.e + 64));
  }

  lemma ProductsApart(minus: nat, v: nat, plus: nat, c: nat)
    requires minus + 512 <= v && v + 1024 <= plus && c >= TWO_63
    ensures Scaled(minus, c) + 1 <= Scaled(v, c) <= Scaled(plus, c) - 1
  {
    hide Scaled;
    ProductDistance(minus, v, c, 512);
    ProductDistance(v, plus, c, 1024);
  }

  /** `grisu2` for a double: at most 17 digits, denoting a number strictly between the two
      midpoints around the double, the shortest and nearest between the shrunken ones. */
  method DigitsOfDouble(buf: array<char>, first: nat, bits: nat) returns (end: nat, decimalExponent: int)
    requires FinitePositive(bits) && buf.Length >= first + 17
    modifies buf
    ensures first < end <= first + 17 && OnlyChanged(old(buf[..]), buf[..], first, end)
    ensures buf[first] != '0' && AllDigits(buf[..][first..end])
    ensures Midpoint(bits - 1) < (Number(buf[..][first..end]) as real) * Ten(decimalExponent) < Midpoint(bits)
    ensures exists b: Bounds :: BoundsOf(b, bits) && Best(b, Number(buf[..][first..end]), decimalExponent)
  {
    hide OnlyChanged, AllDigits, Number, Ten, Best;
    var b := ComputeBoundaries(bits);
    end, decimalExponent := DigitsBetween(buf, first, b.minus, b.w, b.plus);
  }
}
