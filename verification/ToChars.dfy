/**
 `to_chars`: the text of a finite double, and what reading that text gives.
 */
module ToChars {
  import opened Powers
  import opened Digits
  import opened Boundaries
  import opened Grisu2
  import opened FormatBuffer
  import opened Buffers
  import opened Words

  const K_MIN_EXP: int := -4
  const K_MAX_EXP: int := 15
  const MAX_DIGITS_10: int := 17

  // ----- the decimal exponent of a double is far from three digits and a sign ----------

  lemma {:induction false} TensAndTwos(k: nat)
    ensures Pow(2, 3 * k) <= Pow(10, k)
  {
    hide Pow;
    PowFirst(10, k);
    if k == 0 {
      PowFirst(2, 0);
    } else {
      TensAndTwos(k - 1);
      PowAdd(2, 3, 3 * (k - 1));
      TwoCubed();
    }
  }

  lemma TwoCubed()
    ensures Pow(2, 3) == 8
  {
    assert Pow(2, 2) == 4;
  }

  lemma ThreeTwosBelowTen(k: int)
    requires k > 0
    ensures Two(3 * k) <= Ten(k) && Ten(-k) <= Two(-3 * k)
  {
    hide Pow;
    TensAndTwos(k);
    Reciprocals(Pow(2, 3 * k), Pow(10, k));
  }

  lemma Reciprocals(x: nat, y: nat)
    requires 0 < x <= y
    ensures 1.0 / (y as real) <= 1.0 / (x as real)
  {
    ReciprocalsOfReals(x as real, y as real);
  }

  lemma ReciprocalsOfReals(x: real, y: real)
    requires 0.0 < x <= y
    ensures 1.0 / y <= 1.0 / x
  {
  }

  lemma PowerRises(b: nat, m: int, n: int)
    requires b > 1 && m <= n
    ensures Power(b, m) <= Power(b, n)
  {
    hide Pow, Power;
    PowerUp(b, m, n - m);
    AtLeastOnce(Power(b, m), Pow(b, n - m), Power(b, n));
  }

  lemma AtLeastOnce(x: real, k: nat, y: real)
    requires x > 0.0 && k >= 1 && x * (k as real) == y
    ensures x <= y
  {
  }

  lemma {:induction false} NumberFits(s: string)
    requires AllDigits(s)
    ensures Number(s) < Pow(10, |s|)
  {
    if s != "" { NumberFits(s[..|s| - 1]); }
  }

  lemma DecimalRange(d: nat, length: nat, e: int)
    requires 0 < d < Pow(10, length)
    ensures Ten(e) <= Decimal(d, e) < Ten(e + length)
  {
    hide Pow, Power;
    PowerUp(10, e, length);
    Between(Ten(e), d, Pow(10, length), Ten(e + length));
  }

  lemma Between(x: real, d: nat, p: nat, y: real)
    requires x > 0.0 && 0 < d < p && x * (p as real) == y
    ensures x <= (d as real) * x < y
  {
  }

  /** Every midpoint lies well inside 2^-1077 .. 2^1035. */
  lemma MidpointRange(bits: nat)
    requires FinitePositive(bits)
    ensures Two(-1077) <= Midpoint(bits - 1) && Midpoint(bits) <= Two(1035)
  {
    hide ValueOf, Two;
    ValuesIncrease(bits, bits + 1);
    SmallestValues();
    if bits > 1 { ValuesIncrease(1, bits); ValuesIncrease(0, bits - 1); }
    if bits + 1 < 2047 * HIDDEN_BIT { ValuesIncrease(bits + 1, 2047 * HIDDEN_BIT); }
    hide Midpoint;
  }

  lemma SmallestValues()
    ensures ValueOf(0) == 0.0 && ValueOf(1) / 2.0 >= Two(-1077) && ValueOf(2047 * HIDDEN_BIT) <= Two(1035)
  {
    hide Power, Two;
    HalfStep(-1074);
    HalfStep(-1075);
    HalfStep(-1076);
    LargestValue();
  }

  lemma LargestValue()
    ensures (HIDDEN_BIT as real) * Two(972) <= Two(1035)
  {
    hide Power, Pow;
    PowersOfTwo();
    PowerUp(2, 972, 63);
    SmallerTimes(HIDDEN_BIT, TWO_63, Two(972));
  }

  lemma SmallerTimes(a: nat, b: nat, x: real)
    requires a <= b && x > 0.0
    ensures (a as real) * x <= x * (b as real)
  {
  }

  lemma ExponentRange(bits: nat, d: nat, length: nat, e: int)
    requires FinitePositive(bits) && 0 < d < Pow(10, length) && 1 <= length <= MAX_DIGITS_10
    requires Midpoint(bits - 1) < Decimal(d, e) < Midpoint(bits)
    ensures -1000 < length + e - 1 < 1000
  {
    hide Power, Pow, Decimal, Midpoint;
    MidpointRange(bits);
    DecimalRange(d, length, e);
    ThreeTwosBelowTen(345);
    ThreeTwosBelowTen(359);
    if e >= 345 { PowerRises(10, 345, e); }
    if e + length <= -359 { PowerRises(10, e + length, -359); }
  }

  // ----- the text of a double -------------------------------------------------------------

  /** A JSON number that is closer to this double than to any other finite
      double, and less than halfway to 2^1024: whoever reads it and rounds to the nearest
      double gets this one, whatever the rule for ties. */
  predicate ReadsAs(s: string, bits: nat)
    requires bits < 2047 * HIDDEN_BIT
  {
    && IsJsonNumber(s)
    && Meaning(s) < Midpoint(2047 * HIDDEN_BIT - 1)
    && forall other: nat | other < 2047 * HIDDEN_BIT && other != bits ::
         Distance(Meaning(s), ValueOf(bits)) < Distance(Meaning(s), ValueOf(other))
  }

  /** Zero, and any number strictly between the midpoints of a double, read as that double. */
  lemma BetweenMidpointsReadsAs(s: string, bits: nat)
    requires FinitePositive(bits) && IsJsonNumber(s) && Midpoint(bits - 1) < Meaning(s) < Midpoint(bits)
    ensures ReadsAs(s, bits)
  {
    hide Meaning, IsNumeral, ValueOf, Distance;
    forall other: nat | other < 2047 * HIDDEN_BIT && other != bits
      ensures Distance(Meaning(s), ValueOf(bits)) < Distance(Meaning(s), ValueOf(other))
    {
      StrictlyBetweenIsNearest(bits, other, Meaning(s));
    }
    MidpointsRise(bits, 2047 * HIDDEN_BIT - 1);
  }

  lemma MidpointsRise(a: nat, b: nat)
    requires a <= b < 2047 * HIDDEN_BIT
    ensures Midpoint(a) <= Midpoint(b)
  {
    hide ValueOf;
    if a < b {
      ValuesIncrease(a, b);
      ValuesIncrease(a + 1, b + 1);
    }
  }

  lemma ZeroReadsAs()
    ensures ReadsAs("0.0", 0)
  {
    hide ValueOf, IsNumeral, Meaning;
    ZeroMeans();
    assert ValueOf(0) == 0.0 by { SmallestValues(); }
    forall other: nat | other < 2047 * HIDDEN_BIT && other != 0
      ensures Distance(0.0, ValueOf(0)) < Distance(0.0, ValueOf(other))
    {
      ValuesIncrease(0, other);
    }
    ValuesIncrease(0, 2047 * HIDDEN_BIT - 1);
    ValuesIncrease(0, 2047 * HIDDEN_BIT);
  }

  lemma ZeroMeans()
    ensures Denotes("0.0", 0.0)
  {
    hide Denotes, Ten;
    assert Number("0") == 0 by { assert "0"[..0] == ""; }
    TrailingZerosMean("0", 0);
    assert WholeForm("0", 0) == "0.0";
  }

  lemma DigitsInRange(bits: nat, digits: string, e: int)
    requires FinitePositive(bits) && AllDigits(digits) && 1 <= |digits| <= MAX_DIGITS_10
    requires Midpoint(bits - 1) < (Number(digits) as real) * Ten(e) < Midpoint(bits)
    ensures -1000 < |digits| + e - 1 < 1000
  {
    hide Number, Midpoint, Ten, Two, Pow;
    NumberFits(digits);
    MidpointRange(bits);
    PositiveFactor(Number(digits), Ten(e));
    ExponentRange(bits, Number(digits), |digits|, e);
  }

  lemma PositiveFactor(d: nat, x: real)
    requires (d as real) * x > 0.0
    ensures d > 0
  {
  }

  lemma FormattedReadsAs(bits: nat, digits: string, e: int)
    requires FinitePositive(bits) && AllDigits(digits) && 1 <= |digits| && -1000 < |digits| + e - 1 < 1000
    requires digits[0] != '0'
    requires Midpoint(bits - 1) < (Number(digits) as real) * Ten(e) < Midpoint(bits)
    ensures ReadsAs(Formatted(digits, e, K_MIN_EXP, K_MAX_EXP), bits)
  {
    hide Number, Midpoint, Ten, Formatted, ReadsAs, IsNumeral, Meaning;
    FormattedMeans(digits, e, K_MIN_EXP, K_MAX_EXP);
    FormattedIsJson(digits, e, K_MIN_EXP, K_MAX_EXP);
    BetweenMidpointsReadsAs(Formatted(digits, e, K_MIN_EXP, K_MAX_EXP), bits);
  }

  // ----- the form of the text -------------------------------------------------------------

  /** Zero is "0.0"; other numbers are written in fixed form from 10^-4 to before 10^15, and
      otherwise with an exponent. */
  predicate InForm(s: string, bits: nat) {
    && IsNumeral(s)
    && (bits == 0 ==> s == "0.0")
    && (bits != 0 ==> if Ten(-4) <= Meaning(s) < Ten(15) then FixedForm(s) else ScientificForm(s))
    && ('e' in s <==> bits != 0 && !(Ten(-4) <= Meaning(s) < Ten(15)))
  }

  /** The text stands for digits that are the shortest, and of these the nearest, between the
      shrunken midpoints. */
  ghost predicate FromBestDigits(s: string, bits: nat)
    requires FinitePositive(bits)
  {
    && IsNumeral(s)
    && exists b: Bounds, d: nat, e: int :: BoundsOf(b, bits) && Best(b, d, e) && Meaning(s) == Decimal(d, e)
  }

  /** Everything about the text of a double without its sign. */
  ghost predicate Printed(s: string, bits: nat)
    requires bits < 2047 * HIDDEN_BIT
  {
    ReadsAs(s, bits) && InForm(s, bits) && (bits != 0 ==> FromBestDigits(s, bits))
  }

  /** Digits without a leading zero and their decimal exponent say how large the number is. */
  lemma Magnitude(digits: string, e: int)
    requires digits != "" && AllDigits(digits) && digits[0] != '0'
    ensures Ten(|digits| + e - 1) <= Decimal(Number(digits), e) < Ten(|digits| + e)
  {
    hide Number, Pow, Ten, Decimal;
    NumberFits(digits);
    NumberLarge(digits);
    SmallestWith(Number(digits), |digits| - 1, e);
    DecimalRange(Number(digits), |digits|, e);
  }

  lemma {:induction false} NumberLarge(s: string)
    requires s != "" && AllDigits(s) && s[0] != '0'
    ensures Number(s) >= Pow(10, |s| - 1) > 0
  {
    assert IsDigit(s[|s| - 1]);
    if |s| == 1 {
      assert s[..0] == "";
    } else {
      NumberLarge(s[..|s| - 1]);
    }
  }

  lemma SmallestWith(d: nat, n: nat, e: int)
    requires d >= Pow(10, n)
    ensures Ten(n + e) <= Decimal(d, e)
  {
    hide Pow, Power;
    PowerUp(10, e, n);
    SmallerTimes(Pow(10, n), d, Ten(e));
  }

  lemma FormattedInForm(bits: nat, digits: string, e: int)
    requires bits != 0 && Needed(digits) && digits[0] != '0' && -1000 < |digits| + e - 1 < 1000
    ensures InForm(Formatted(digits, e, K_MIN_EXP, K_MAX_EXP), bits)
  {
    hide Number, Power, Pow, Formatted, IsNumeral, Meaning, FixedForm, ScientificForm;
    var n := |digits| + e;
    FormattedMeans(digits, e, K_MIN_EXP, K_MAX_EXP);
    FormattedForm(digits, e, K_MIN_EXP, K_MAX_EXP);
    FormChosen(digits, e, K_MIN_EXP, K_MAX_EXP);
    Magnitude(digits, e);
    if n <= -4 { PowerRises(10, n, -4); } else { PowerRises(10, -4, n - 1); }
    if n <= 15 { PowerRises(10, n, 15); } else { PowerRises(10, 15, n - 1); }
  }

  lemma FormattedPrinted(bits: nat, digits: string, e: int)
    requires FinitePositive(bits) && AllDigits(digits) && 1 <= |digits| && -1000 < |digits| + e - 1 < 1000
    requires digits[0] != '0'
    requires Midpoint(bits - 1) < (Number(digits) as real) * Ten(e) < Midpoint(bits)
    requires exists b: Bounds :: BoundsOf(b, bits) && Best(b, Number(digits), e)
    ensures Printed(Formatted(digits, e, K_MIN_EXP, K_MAX_EXP), bits)
  {
    hide Number, Midpoint, Ten, Formatted, ReadsAs, InForm, IsNumeral, Meaning, Best;
    var b: Bounds :| BoundsOf(b, bits) && Best(b, Number(digits), e);
    BestIsNeeded(b, digits, e);
    FormattedReadsAs(bits, digits, e);
    FormattedInForm(bits, digits, e);
    FormattedMeans(digits, e, K_MIN_EXP, K_MAX_EXP);
    assert Meaning(Formatted(digits, e, K_MIN_EXP, K_MAX_EXP)) == Decimal(Number(digits), e);
  }

  lemma ZeroPrinted()
    ensures Printed("0.0", 0)
  {
    hide IsNumeral, Meaning, ReadsAs;
    ZeroReadsAs();
    ZeroMeans();
    assert "0.0" == ['0', '.', '0'];
  }

  /** The text of a double with a sign. */
  ghost predicate SignedText(text: string, negative: bool, bits: nat)
    requires bits < 2047 * HIDDEN_BIT
  {
    if negative then |text| > 0 && text[0] == '-' && Printed(text[1..], bits) else Printed(text, bits)
  }

  lemma NumeralsStartWithDigit(s: string)
    requires IsNumeral(s)
    ensures s != "" && IsDigit(s[0])
  {
    hide FirstOf;
    var m := s[..FirstOf(s, 'e')];
    assert IsDigit(m[..FirstOf(m, '.')][0]);
  }

  lemma Closer(s: string, a: nat, b: nat)
    requires a < 2047 * HIDDEN_BIT && b < 2047 * HIDDEN_BIT && a != b && ReadsAs(s, a)
    ensures Distance(Meaning(s), ValueOf(a)) < Distance(Meaning(s), ValueOf(b))
  {
    hide IsNumeral, Meaning, Midpoint, ValueOf, Distance;
  }

  lemma ReadsAsOne(s: string, a: nat, b: nat)
    requires a < 2047 * HIDDEN_BIT && b < 2047 * HIDDEN_BIT && ReadsAs(s, a) && ReadsAs(s, b)
    ensures a == b
  {
    hide IsNumeral, Meaning, Midpoint, ValueOf, Distance;
    if a != b {
      Closer(s, a, b);
    }
  }

  /** No two doubles share a text, sign included. */
  lemma TextsDiffer(text: string, negativeA: bool, a: nat, negativeB: bool, b: nat)
    requires a < 2047 * HIDDEN_BIT && b < 2047 * HIDDEN_BIT
    requires SignedText(text, negativeA, a) && SignedText(text, negativeB, b)
    ensures negativeA == negativeB && a == b
  {
    hide IsNumeral, Meaning, Midpoint, ValueOf, Distance;
    if negativeA != negativeB {
      NumeralsStartWithDigit(text);
    } else {
      ReadsAsOne(if negativeA then text[1..] else text, a, b);
    }
  }

  /** The buffer space that the function writes or asserts. */
  function Space(bits: nat): nat {
    if bits == 0 then 3 else MAX_DIGITS_10 + 6
  }

  /** `to_chars` for a finite double given by its sign and its other bits: the text is written
      from `first0` on, `end` is the position behind it, and what was before stays. */
  method WriteDouble(buf: array<char>, first0: nat, negative: bool, bits: nat) returns (end: nat)
    requires bits < 2047 * HIDDEN_BIT
    requires buf.Length >= first0 + (if negative then 1 else 0) + Space(bits)
    modifies buf
    ensures first0 < end <= buf.Length && buf[..first0] == old(buf[..first0])
    ensures SignedText(buf[..][first0..end], negative, bits)
    ensures first0 + (if negative then 1 else 0) <= end
    ensures var s := buf[..][first0 + (if negative then 1 else 0)..end];
            && IsNumeral(s)
            && (bits == 0 ==> s == "0.0")
            && (bits != 0 ==> ('e' in s <==> !(Ten(-4) <= Meaning(s) < Ten(15))))
            && (if 'e' in s then ScientificForm(s) else FixedForm(s))
  {
    hide SignedText, Printed, IsNumeral, Meaning, Ten, ScientificForm, FixedForm;
    var first := first0;
    ghost var before := buf[..first0];
    if negative {
      buf[first] := '-';
      first := first + 1;
    }
    assert buf[..first] == before + if negative then "-" else "";
    ghost var text;
    end, text := WriteUnsigned(buf, first, bits);
    SignBefore(buf[..], before, text, end, negative, bits);
    PrintedForm(text, bits);
    assert buf[..][first..end] == buf[..end][first..] == text;
  }

  /** The form of the text with its limits. */
  lemma PrintedForm(s: string, bits: nat)
    requires bits < 2047 * HIDDEN_BIT && Printed(s, bits)
    ensures IsNumeral(s) && (bits == 0 ==> s == "0.0")
    ensures bits != 0 ==> ('e' in s <==> !(Ten(-4) <= Meaning(s) < Ten(15)))
    ensures if 'e' in s then ScientificForm(s) else FixedForm(s)
  {
    hide ReadsAs, FromBestDigits, IsNumeral, Meaning, Ten, ScientificForm;
    if bits == 0 {
      assert "0.0" == "0" + "." + "0";
      PointedForm("0", "0");
    }
  }

  /** The part of `to_chars` behind the sign. */
  method WriteUnsigned(buf: array<char>, first: nat, bits: nat) returns (end: nat, ghost text: string)
    requires bits < 2047 * HIDDEN_BIT && buf.Length >= first + Space(bits)
    modifies buf
    ensures first <= end <= buf.Length && buf[..end] == old(buf[..first]) + text && Printed(text, bits)
  {
    hide Printed, Formatted, Number, Midpoint, Ten, OnlyChanged, AllDigits, Best, BoundsOf;
    ghost var was := buf[..];
    if bits == 0 {
      buf[first] := '0';
      buf[first + 1] := '.';
      buf[first + 2] := '0';
      end, text := first + 3, "0.0";
      ZeroPrinted();
    } else {
      var stop, decimalExponent := DigitsOfDouble(buf, first, bits);
      ghost var digits := buf[..][first..stop];
      PrefixStays(was, buf[..], first, stop);
      DigitsInRange(bits, digits, decimalExponent);
      FormattedPrinted(bits, digits, decimalExponent);
      text := Formatted(digits, decimalExponent, K_MIN_EXP, K_MAX_EXP);
      end := FormatInPlace(buf, first, stop - first, decimalExponent, K_MIN_EXP, K_MAX_EXP);
    }
  }

  lemma PrefixStays(was: string, now: string, first: nat, end: nat)
    requires OnlyChanged(was, now, first, end)
    ensures now[..first] == was[..first]
  {
  }

  lemma SignBefore(buffer: string, before: string, text: string, end: nat, negative: bool, bits: nat)
    requires bits < 2047 * HIDDEN_BIT && Printed(text, bits) && end <= |buffer|
    requires buffer[..end] == (before + if negative then "-" else "") + text
    ensures |before| < end && buffer[..|before|] == before
    ensures SignedText(buffer[|before|..end], negative, bits)
  {
    hide Printed;
    TextNotEmpty(text, bits);
    var all := buffer[..end];
    assert buffer[|before|..end] == all[|before|..];
    if negative {
      assert all[|before|..] == "-" + text && ("-" + text)[1..] == text;
    } else {
      assert all[|before|..] == text;
    }
    assert buffer[..|before|] == all[..|before|] == before;
  }

  lemma TextNotEmpty(text: string, bits: nat)
    requires bits < 2047 * HIDDEN_BIT && Printed(text, bits)
    ensures text != ""
  {
    hide Meaning, Distance, Midpoint, ValueOf, InForm, FromBestDigits;
    NumeralsStartWithDigit(text);
  }
}
