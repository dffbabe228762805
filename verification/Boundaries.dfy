/**
 Doubles by their bits, and `compute_boundaries`: a double and the two midpoints
 between it and its neighbours.
 */
module Boundaries {
  import opened Powers
  import opened DiyFp
  import opened Words

  const HIDDEN_BIT: int := 0x10_0000_0000_0000   // 2^52
  const K_BIAS: int := 1075                      // 1023 + 52
  const MIN_EXP: int := -1074                    // 1 - K_BIAS

  /** The bits of a finite positive double; the bits of neighbours differ by one. */
  predicate FinitePositive(bits: int) {
    0 < bits < 2047 * HIDDEN_BIT
  }

  /** The significand and exponent that the bits E, F of a double stand for. */
  function Decoded(bits: nat): (v: Diy)
    requires bits <= 2047 * HIDDEN_BIT
    ensures v.f <= 2 * HIDDEN_BIT
  {
    var e, f := bits / HIDDEN_BIT, bits % HIDDEN_BIT;
    if e == 0 then Diy(f, MIN_EXP) else Diy(f + HIDDEN_BIT, e - K_BIAS)
  }

  /** The number with these bits; the bits behind the largest double stand for 2^1024. */
  function ValueOf(bits: nat): real
    requires bits <= 2047 * HIDDEN_BIT
  {
    Decoded(bits).Value()
  }

  /** The midpoint between two neighbouring doubles. */
  function Midpoint(lower: nat): real
    requires lower < 2047 * HIDDEN_BIT
  {
    (ValueOf(lower) + ValueOf(lower + 1)) / 2.0
  }

  lemma HalfStep(e: int)
    ensures Two(e) == 2.0 * Two(e - 1)
  {
    hide Power;
    TwoAdd(1, e - 1);
    assert Two(1) == 2.0 by { PowerOne(); }
  }

  lemma PowerOne()
    ensures Two(1) == 2.0
  {
    assert Pow(2, 1) == 2 * Pow(2, 0);
  }

  /** The next double, seen from the significand and exponent of this one. */
  lemma NextValue(bits: nat)
    requires bits < 2047 * HIDDEN_BIT
    ensures var v := Decoded(bits); ValueOf(bits + 1) == ((v.f + 1) as real) * Two(v.e)
  {
    hide Two;
    var e, f := bits / HIDDEN_BIT, bits % HIDDEN_BIT;
    if f == HIDDEN_BIT - 1 {
      assert (bits + 1) / HIDDEN_BIT == e + 1 && (bits + 1) % HIDDEN_BIT == 0;
      if e > 0 {
        HalfStep(e + 1 - K_BIAS);
      }
    } else {
      assert (bits + 1) / HIDDEN_BIT == e && (bits + 1) % HIDDEN_BIT == f + 1;
    }
  }

  /** A double lies closer to its predecessor when it is a power of two and not minimal. */
  predicate LowerIsCloser(bits: nat) {
    bits % HIDDEN_BIT == 0 && bits / HIDDEN_BIT > 1
  }

  /** The previous double, seen from the significand and exponent of this one. */
  lemma PreviousValue(bits: nat)
    requires 0 < bits <= 2047 * HIDDEN_BIT
    ensures Decoded(bits).f >= 1
    ensures var v := Decoded(bits);
            ValueOf(bits - 1) == (if LowerIsCloser(bits) then ((2 * v.f - 1) as real) * Two(v.e - 1)
                                  else ((v.f - 1) as real) * Two(v.e))
  {
    hide Two;
    NextValue(bits - 1);
    var v, u := Decoded(bits), Decoded(bits - 1);
    var e, f := bits / HIDDEN_BIT, bits % HIDDEN_BIT;
    if f == 0 {
      assert (bits - 1) / HIDDEN_BIT == e - 1 && (bits - 1) % HIDDEN_BIT == HIDDEN_BIT - 1;
    } else {
      assert (bits - 1) / HIDDEN_BIT == e && (bits - 1) % HIDDEN_BIT == f - 1;
    }
  }

  /** The double with its two midpoints, brought to one exponent. */
  datatype Bounds = Bounds(w: Diy, minus: Diy, plus: Diy)

  /** What `grisu2` relies on: a normalized number between boundaries that are at least 512
      units away, with an interval that is at least 2^-53 of its upper end. */
  predicate WellPlaced(b: Bounds) {
    && b.w.e == b.minus.e == b.plus.e
    && -1137 <= b.w.e <= 960
    && TWO_63 <= b.w.f
    && b.minus.f + 512 <= b.w.f && b.w.f + 1024 <= b.plus.f
    && b.plus.f <= 0x20_0000_0000_0000 * (b.plus.f - b.minus.f)
  }

  /** The double itself, and exactly the midpoints to its neighbours. */
  predicate BoundsOf(b: Bounds, bits: nat)
    requires FinitePositive(bits)
  {
    && WellPlaced(b)
    && b.w.Value() == ValueOf(bits)
    && b.minus.Value() == Midpoint(bits - 1)
    && b.plus.Value() == Midpoint(bits)
  }

  /** `compute_boundaries`. */
  method ComputeBoundaries(bits: nat) returns (b: Bounds)
    requires FinitePositive(bits)
    ensures BoundsOf(b, bits)
  {
    hide Two, Pow, Diy.Value, LowerIsCloser, Decoded;
    var v := Decoded(bits);
    SignificandPositive(bits);
    var lowerIsCloser := LowerIsCloser(bits);
    var mPlus := Diy(2 * v.f + 1, v.e - 1);
    var mMinus := if lowerIsCloser then Diy(4 * v.f - 1, v.e - 2) else Diy(2 * v.f - 1, v.e - 1);
    MidpointsAreRight(bits);
    var plus, t := Normalize(mPlus);
    var w, s := Normalize(v);
    SameShift(v.f, s, t);
    MinusFits(bits, t);
    var minus := NormalizeTo(mMinus, plus.e);
    ShiftKeepsValue(mPlus, t);
    ShiftKeepsValue(v, s);
    b := Bounds(w, minus, plus);
  }

  lemma SignificandPositive(bits: nat)
    requires FinitePositive(bits)
    ensures var v := Decoded(bits); 1 <= v.f < 2 * HIDDEN_BIT && -1074 <= v.e <= 971
    ensures LowerIsCloser(bits) ==> Decoded(bits).f == HIDDEN_BIT
  {
  }

  lemma MidpointsAreRight(bits: nat)
    requires FinitePositive(bits)
    ensures Decoded(bits).f >= 1
    ensures var v := Decoded(bits);
            && Diy(2 * v.f + 1, v.e - 1).Value() == Midpoint(bits)
            && (if LowerIsCloser(bits) then Diy(4 * v.f - 1, v.e - 2) else Diy(2 * v.f - 1, v.e - 1)).Value() ==
               Midpoint(bits - 1)
  {
    hide Two, Decoded, LowerIsCloser;
    var v := Decoded(bits);
    SignificandPositive(bits);
    NextValue(bits);
    PreviousValue(bits);
    HalfStep(v.e);
    HalfStep(v.e - 1);
  }

  /** The upper midpoint needs one shift less than the number itself. */
  lemma SameShift(f: nat, s: nat, t: nat)
    requires 1 <= f < 2 * HIDDEN_BIT
    requires TWO_63 <= f * Pow(2, s) < TWO_64 && TWO_63 <= (2 * f + 1) * Pow(2, t) < TWO_64
    ensures s == t + 1 && 10 <= t <= 62
    ensures f * Pow(2, s) == (2 * f) * Pow(2, t) && Pow(2, t) >= 1024
  {
    ShiftRange(f, t);
    DoubleShift(f, t);
    DoubleShift(f, t + 1);
    Regrouped(f, Pow(2, t));
    if s > t + 1 {
      PowerSplit(t);
      EvenPart(f, Pow(2, t), Pow(2, 63 - t));
      Shifts(f, t + 2, s);
    } else if s < t + 1 {
      Shifts(f, s, t);
    }
  }

  lemma Regrouped(f: nat, p: nat)
    ensures 2 * (f * p) == (2 * f) * p && (2 * f + 1) * p == 2 * (f * p) + p
  {
  }

  /** An odd multiple of p that reaches q p, q even, reaches it with its even part. */
  lemma EvenPart(f: nat, p: nat, q: nat)
    requires p > 0 && q % 2 == 0 && (2 * f + 1) * p >= q * p
    ensures 2 * (f * p) >= q * p
  {
    if 2 * f + 1 < q { LessTimes(2 * f + 1, q, p); }
    Mono(p, q, 2 * f);
    Regrouped(f, p);
  }

  lemma LessTimes(a: nat, b: nat, p: nat)
    requires a < b && p > 0
    ensures a * p < b * p
  {
  }

  lemma Shifts(f: nat, m: nat, n: nat)
    requires m <= n
    ensures f * Pow(2, m) <= f * Pow(2, n)
  {
    if m < n { PowGrows(2, m, n); }
    Mono(f, Pow(2, m), Pow(2, n));
  }

  lemma PowerSplit(t: nat)
    requires t <= 62
    ensures Pow(2, 63 - t) * Pow(2, t) == TWO_63 && Pow(2, 63 - t) % 2 == 0
  {
    hide Pow;
    PowAdd(2, 63 - t, t);
    PowersOfTwo();
    PowIsEven(63 - t);
  }

  lemma PowDoubles(t: nat)
    ensures t > 0 ==> Pow(2, t) == 2 * Pow(2, t - 1)
  {
  }

  lemma PowIsEven(n: nat)
    requires n > 0
    ensures Pow(2, n) % 2 == 0
  {
    assert Pow(2, n) == 2 * Pow(2, n - 1);
  }

  lemma ShiftRange(f: nat, t: nat)
    requires 1 <= f < 2 * HIDDEN_BIT && TWO_63 <= (2 * f + 1) * Pow(2, t) < TWO_64
    ensures 10 <= t <= 62 && Pow(2, t) >= 1024
  {
    PowersOfTwo();
    if t < 10 {
      assert Pow(2, t) <= 512 by { if t < 9 { PowGrows(2, t, 9); } }
      Mono(Pow(2, t), 2 * f + 1, 4 * HIDDEN_BIT);
    } else if t > 10 {
      PowGrows(2, 10, t);
    }
    if t >= 63 {
      if t > 63 { PowGrows(2, 63, t); }
      Mono(Pow(2, t), 3, 2 * f + 1);
    }
  }

  /** The lower midpoint fits behind the shift to the common exponent, and lies where it should. */
  lemma MinusFits(bits: nat, t: nat)
    requires FinitePositive(bits)
    requires var v := Decoded(bits); TWO_63 <= (2 * v.f + 1) * Pow(2, t) < TWO_64
    ensures var v := Decoded(bits);
            var m := if LowerIsCloser(bits) then Diy(4 * v.f - 1, v.e - 2) else Diy(2 * v.f - 1, v.e - 1);
            var plus := (2 * v.f + 1) * Pow(2, t);
            var n := m.e - (v.e - 1 - t);
            n >= 0 &&
            var minus := m.f * Pow(2, n);
            && minus + 512 <= (2 * v.f) * Pow(2, t)
            && (2 * v.f) * Pow(2, t) + 1024 <= plus
            && plus <= 0x20_0000_0000_0000 * (plus - minus)
  {
    var v := Decoded(bits);
    hide Decoded, Pow;
    SignificandPositive(bits);
    ShiftRange(v.f, t);
    PowDoubles(t);
    if LowerIsCloser(bits) {
      QuarterFits(v.f, Pow(2, t - 1), Pow(2, t));
    } else {
      HalfFits(v.f, Pow(2, t));
    }
  }

  /** The distances when the lower neighbour is closer, */
  lemma QuarterFits(f: nat, h: nat, p: nat)
    requires f == HIDDEN_BIT && p == 2 * h && p >= 1024
    ensures (4 * f - 1) * h + 512 <= (2 * f) * p && (2 * f) * p + 1024 <= (2 * f + 1) * p
    ensures (2 * f + 1) * p <= 0x20_0000_0000_0000 * ((2 * f + 1) * p - (4 * f - 1) * h)
  {
    QuarterStep(f, h);
  }

  /** and when it is not. */
  lemma HalfFits(f: nat, p: nat)
    requires 1 <= f < 2 * HIDDEN_BIT && p >= 1024
    ensures (2 * f - 1) * p + 512 <= (2 * f) * p && (2 * f) * p + 1024 <= (2 * f + 1) * p
    ensures (2 * f + 1) * p <= 0x20_0000_0000_0000 * ((2 * f + 1) * p - (2 * f - 1) * p)
  {
    HalfStepBelow(f, p);
  }

  lemma QuarterStep(f: nat, h: nat)
    requires f == HIDDEN_BIT
    ensures (4 * f - 1) * h == (2 * f) * (2 * h) - h && (2 * f + 1) * (2 * h) <= 0x20_0000_0000_0000 * (3 * h)
  {
  }

  lemma HalfStepBelow(f: nat, p: nat)
    requires 1 <= f < 2 * HIDDEN_BIT
    ensures (2 * f - 1) * p == (2 * f) * p - p && (2 * f + 1) * p <= 0x20_0000_0000_0000 * (2 * p)
  {
    Mono(p, 2 * f + 1, 4 * HIDDEN_BIT);
  }

  // ----- the doubles are ordered like their bits ---------------------------------

  lemma {:induction false} ValuesIncrease(a: nat, b: nat)
    requires a < b <= 2047 * HIDDEN_BIT
    ensures ValueOf(a) < ValueOf(b)
    decreases b
  {
    hide ValueOf;
    NextIsLarger(b - 1);
    if a < b - 1 { ValuesIncrease(a, b - 1); }
  }

  lemma NextIsLarger(bits: nat)
    requires bits < 2047 * HIDDEN_BIT
    ensures ValueOf(bits) < ValueOf(bits + 1)
  {
    hide Two, Decoded;
    NextValue(bits);
    LargerFactor(Decoded(bits).f, Two(Decoded(bits).e));
  }

  lemma LargerFactor(f: nat, x: real)
    requires x > 0.0
    ensures (f as real) * x < ((f + 1) as real) * x
  {
  }

  /** A number strictly between the two midpoints is closer to its double than to any
      other finite double (zero included), whatever the rule for ties. */
  lemma StrictlyBetweenIsNearest(bits: nat, other: nat, x: real)
    requires FinitePositive(bits) && other < 2047 * HIDDEN_BIT && other != bits
    requires Midpoint(bits - 1) < x < Midpoint(bits)
    ensures Distance(x, ValueOf(bits)) < Distance(x, ValueOf(other))
  {
    hide ValueOf;
    ValuesIncrease(bits - 1, bits);
    ValuesIncrease(bits, bits + 1);
    if other < bits {
      if other < bits - 1 { ValuesIncrease(other, bits - 1); }
    } else {
      if bits + 1 < other { ValuesIncrease(bits + 1, other); }
    }
  }

  function Distance(x: real, y: real): real {
    if x < y then y - x else x - y
  }
}
