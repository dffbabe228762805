/**
 Floating-point numbers with a 64-bit significand and explicit exponent, `f * 2^e`.
 */
module DiyFp {
  import opened Powers
  import opened Words

  datatype Diy = Diy(f: uint64, e: int) {
    /** The number represented. */
    function Value(): real { f as real * Two(e) }
  }

  /** `sub`. */
  function Sub(x: Diy, y: Diy): (r: Diy)
    requires x.e == y.e && x.f >= y.f
    ensures r.f + y.f == x.f
  {
    Diy(x.f - y.f, x.e)
  }

  lemma MulBound(a: nat, b: nat, m: nat, n: nat)
    requires a < m && b < n
    ensures 0 <= a * b <= (m - 1) * (n - 1)
  {
    Mono(b, a, m - 1);
    Mono(m - 1, b, n - 1);
  }

  lemma Product(a: nat, b: nat)
    requires a < TWO_32 && b < TWO_32
    ensures a * b <= 0xFFFF_FFFE_0000_0001
  {
    MulBound(a, b, TWO_32, TWO_32);
  }

  /** `mul`: the 64 by 64 bit product from four 32-bit products, of which only the
      rounded upper half is kept.  No intermediate result leaves 64 bits. */
  function Mul(x: Diy, y: Diy): (r: Diy)
    ensures r.f == (x.f * y.f + TWO_63) / TWO_64
    ensures r.e == x.e + y.e + 64
  {
    var uLo: uint64, uHi: uint64 := x.f % TWO_32, x.f / TWO_32;
    var vLo: uint64, vHi: uint64 := y.f % TWO_32, y.f / TWO_32;
    Product(uLo, vLo); Product(uLo, vHi); Product(uHi, vLo); Product(uHi, vHi);
    var p0: uint64, p1: uint64 := uLo * vLo, uLo * vHi;
    var p2: uint64, p3: uint64 := uHi * vLo, uHi * vHi;
    var p0Hi: uint64 := p0 / TWO_32;
    var p1Lo: uint64, p1Hi: uint64 := p1 % TWO_32, p1 / TWO_32;
    var p2Lo: uint64, p2Hi: uint64 := p2 % TWO_32, p2 / TWO_32;
    var q: uint64 := p0Hi + p1Lo + p2Lo;
    var rounded: uint64 := q + 0x8000_0000;
    ProductSplit(uLo, uHi, vLo, vHi);
    UpperHalf(x.f * y.f, p0, p1, p2, p3);
    var h: uint64 := p3 + p2Hi + p1Hi + rounded / TWO_32;
    Diy(h, x.e + y.e + 64)
  }

  lemma ProductSplit(uLo: nat, uHi: nat, vLo: nat, vHi: nat)
    ensures (uLo + TWO_32 * uHi) * (vLo + TWO_32 * vHi) ==
            uLo * vLo + TWO_32 * (uLo * vHi + uHi * vLo) + TWO_64 * (uHi * vHi)
  {
    var a, b := TWO_32 * uHi, TWO_32 * vHi;
    assert (uLo + a) * (vLo + b) == uLo * vLo + uLo * b + a * vLo + a * b;
    assert uLo * b == TWO_32 * (uLo * vHi);
    assert a * vLo == TWO_32 * (uHi * vLo);
    assert a * b == TWO_32 * (TWO_32 * (uHi * vHi)) by {
      assert a * b == TWO_32 * (uHi * b);
      assert uHi * b == TWO_32 * (uHi * vHi);
    }
  }

  /** What the four partial products add up to in the upper 64 bits, after rounding. */
  lemma UpperHalf(p: nat, p0: nat, p1: nat, p2: nat, p3: nat)
    requires p == p0 + TWO_32 * (p1 + p2) + TWO_64 * p3
    requires p0 < TWO_64 && p1 < TWO_64 && p2 < TWO_64 && p < TWO_64 * TWO_64 - TWO_64
    ensures var q := p0 / TWO_32 + p1 % TWO_32 + p2 % TWO_32 + 0x8000_0000;
            p3 + p2 / TWO_32 + p1 / TWO_32 + q / TWO_32 == (p + TWO_63) / TWO_64 < TWO_64
  {
  }

  /** `normalize`: shift left until the top bit is set; `shift` counts the turns. */
  method Normalize(x0: Diy) returns (x: Diy, ghost shift: nat)
    requires x0.f != 0
    ensures x.f == x0.f * Pow(2, shift) && x.e == x0.e - shift
    ensures TWO_63 <= x.f < TWO_64
  {
    x, shift := x0, 0;
    while x.f / TWO_63 == 0
      invariant x.f == x0.f * Pow(2, shift) && x.e == x0.e - shift
      invariant 0 < x.f
      decreases TWO_63 - x.f
    {
      DoubleShift(x0.f, shift);
      x := Diy(2 * x.f, x.e - 1);
      shift := shift + 1;
    }
  }

  lemma DoubleShift(f: nat, n: nat)
    ensures f * Pow(2, n + 1) == 2 * (f * Pow(2, n))
  {
    var p := Pow(2, n);
    assert f * (2 * p) == 2 * (f * p);
  }

  /** `normalize_to`; the two assertions of the library are the precondition. */
  function NormalizeTo(x: Diy, e: int): (r: Diy)
    requires x.e >= e && x.f * Pow(2, x.e - e) < TWO_64
    ensures r.e == e && r.Value() == x.Value()
  {
    ShiftKeepsValue(x, x.e - e);
    Diy(x.f * Pow(2, x.e - e), e)
  }

  /** Moving binary places between significand and exponent. */
  lemma ShiftKeepsValue(x: Diy, n: nat)
    requires x.f * Pow(2, n) < TWO_64
    ensures Diy(x.f * Pow(2, n), x.e - n).Value() == x.Value()
  {
    hide Pow, Power;
    ProductAsReal(x.f, Pow(2, n));
    PowerUp(2, x.e - n, n);
    Regroup(x.f as real, Pow(2, n) as real, Two(x.e - n));
  }

  lemma Regroup(x: real, y: real, z: real)
    ensures (x * y) * z == x * (z * y)
  {
  }
}
