/**
 Formatting: digits and a decimal exponent become the text of a floating-point number, in
 place.  What the text means is defined independently, by reading it.
 */
module FormatBuffer {
  import opened Powers
  import opened Digits
  import opened Buffers

  /** d * 10^e */
  function Decimal(d: nat, e: int): real {
    (d as real) * Ten(e)
  }

  // ----- reading a numeral --------------------------------------------------------

  /** The position of the first `c`, or the length. */
  function FirstOf(s: string, c: char): (p: nat)
    ensures p <= |s| && forall i | 0 <= i < p :: s[i] != c
    ensures p < |s| ==> s[p] == c
  {
    if s == "" || s[0] == c then 0 else 1 + FirstOf(s[1..], c)
  }

  /** A sign and at least one digit. */
  predicate IsExponent(s: string) {
    |s| >= 2 && (s[0] == '+' || s[0] == '-') && AllDigits(s[1..])
  }

  function ExponentOf(s: string): int
    requires IsExponent(s)
  {
    var k: int := Number(s[1..]);
    if s[0] == '-' then -k else k
  }

  /** Digits, possibly with a point inside. */
  predicate IsMantissa(s: string) {
    var p := FirstOf(s, '.');
    p > 0 && AllDigits(s[..p]) && (p < |s| ==> p + 1 < |s| && AllDigits(s[p + 1..]))
  }

  function MantissaOf(s: string): real
    requires IsMantissa(s)
  {
    var p := FirstOf(s, '.');
    if p == |s| then Number(s[..p]) as real
    else
      JoinDigits(s[..p], s[p + 1..]);
      Decimal(Number(s[..p] + s[p + 1..]), p + 1 - |s|)
  }

  lemma JoinDigits(a: string, b: string)
    requires AllDigits(a) && AllDigits(b)
    ensures AllDigits(a + b)
  {
  }

  /** A mantissa, possibly followed by "e" and an exponent. */
  predicate IsNumeral(s: string) {
    var p := FirstOf(s, 'e');
    IsMantissa(s[..p]) && (p < |s| ==> IsExponent(s[p + 1..]))
  }

  /** The number that a numeral denotes. */
  function Meaning(s: string): real
    requires IsNumeral(s)
  {
    var p := FirstOf(s, 'e');
    if p == |s| then MantissaOf(s[..p]) else MantissaOf(s[..p]) * Ten(ExponentOf(s[p + 1..]))
  }

  /** A numeral of JSON (section 6 of RFC 8259) without its sign: nothing but a point or an
      exponent follows a leading zero. */
  predicate IsJsonNumber(s: string) {
    IsNumeral(s) && (|s| > 1 && s[0] == '0' ==> !IsDigit(s[1]))
  }

  // ----- the text that is written ----------------------------------------------------

  function Zeros(n: nat): (s: string)
    ensures |s| == n && AllDigits(s) && forall i | 0 <= i < n :: s[i] == '0'
  {
    seq(n, _ => '0')
  }

  /** What `append_exponent` writes: a sign and at least two digits. */
  function ExponentText(e: int): string
    requires -1000 < e < 1000
  {
    var k := if e < 0 then -e else e;
    (if e < 0 then "-" else "+") +
    if k < 10 then ['0', Digit(k)]
    else if k < 100 then [Digit(k / 10), Digit(k % 10)]
    else [Digit(k / 100), Digit(k % 100 / 10), Digit(k % 100 % 10)]
  }

  function Digit(d: nat): (c: char)
    requires d <= 9
    ensures IsDigit(c) && c as int - '0' as int == d
  {
    ('0' as int + d) as char
  }

  /** digits[000].0 */
  function WholeForm(digits: string, zeros: nat): string {
    digits + Zeros(zeros) + ".0"
  }

  /** dig.its */
  function PointForm(digits: string, n: nat): string
    requires n <= |digits|
  {
    digits[..n] + "." + digits[n..]
  }

  /** 0.[000]digits */
  function FractionForm(digits: string, zeros: nat): string {
    "0." + Zeros(zeros) + digits
  }

  /** dE+123 and d.igitsE+123 */
  function ExponentForm(digits: string, e: int): string
    requires |digits| >= 1 && -1000 < e < 1000
  {
    if |digits| == 1 then digits + "e" + ExponentText(e)
    else digits[..1] + "." + digits[1..] + "e" + ExponentText(e)
  }

  /** What `format_buffer` writes for the digits and their decimal exponent. */
  function Formatted(digits: string, decimalExponent: int, minExp: int, maxExp: int): string
    requires |digits| >= 1 && -1000 < |digits| + decimalExponent - 1 < 1000
  {
    var k, n := |digits|, |digits| + decimalExponent;
    if k <= n <= maxExp then WholeForm(digits, n - k)
    else if 0 < n <= maxExp then PointForm(digits, n)
    else if minExp < n <= 0 then FractionForm(digits, -n)
    else ExponentForm(digits, n - 1)
  }

  // ----- the text means what the digits mean ------------------------------------------

  lemma FirstOfConcat(a: string, c: char, b: string)
    requires c !in a
    ensures FirstOf(a + [c] + b, c) == |a| && FirstOf(a, c) == |a|
  {
    hide FirstOf;
    assert (a + [c] + b)[|a|] == c;
    assert forall i | 0 <= i < |a| :: (a + [c] + b)[i] == a[i];
  }

  lemma CutAt(a: string, c: char, b: string)
    ensures (a + [c] + b)[..|a|] == a && (a + [c] + b)[|a| + 1..] == b
  {
  }

  lemma DigitsHaveNo(s: string, c: char)
    requires AllDigits(s) && !IsDigit(c)
    ensures c !in s
  {
  }

  /** A mantissa with a point. */
  lemma PointedMantissa(a: string, b: string)
    requires a != "" && b != "" && AllDigits(a) && AllDigits(b)
    ensures AllDigits(a + b)
    ensures IsMantissa(a + "." + b)
    ensures MantissaOf(a + "." + b) == Decimal(Number(a + b), -|b|)
  {
    hide FirstOf, Power, Ten, Number;
    DigitsHaveNo(a, '.');
    FirstOfConcat(a, '.', b);
    CutAt(a, '.', b);
    JoinDigits(a, b);
  }

  /** A mantissa alone. */
  lemma PlainNumeral(m: string)
    requires IsMantissa(m) && 'e' !in m
    ensures IsNumeral(m) && Meaning(m) == MantissaOf(m)
  {
    hide FirstOf, IsMantissa, MantissaOf;
    FirstOfConcat(m, 'e', "");
    assert m[..|m|] == m;
  }

  /** A mantissa with an exponent. */
  lemma ScaledNumeral(m: string, x: string)
    requires IsMantissa(m) && 'e' !in m && IsExponent(x)
    ensures IsNumeral(m + "e" + x) && Meaning(m + "e" + x) == MantissaOf(m) * Ten(ExponentOf(x))
  {
    hide FirstOf, IsMantissa, MantissaOf, IsExponent, ExponentOf, Power, Ten;
    FirstOfConcat(m, 'e', x);
    CutAt(m, 'e', x);
  }

  lemma NumberZeroBehind(s: string)
    requires AllDigits(s)
    ensures AllDigits(s + "0") && Number(s + "0") == 10 * Number(s)
  {
    assert (s + "0")[..|s|] == s;
  }

  lemma TenTimes(a: nat, p: nat)
    ensures a * (10 * p) == 10 * (a * p)
  {
  }

  /** Zeros behind the digits multiply, zeros in front change nothing. */
  lemma {:induction false} NumberZerosBehind(s: string, n: nat)
    requires AllDigits(s)
    ensures AllDigits(s + Zeros(n)) && Number(s + Zeros(n)) == Number(s) * Pow(10, n)
  {
    hide Number;
    if n == 0 {
      assert s + Zeros(0) == s;
    } else {
      NumberZerosBehind(s, n - 1);
      NumberZeroBehind(s + Zeros(n - 1));
      assert s + Zeros(n) == s + Zeros(n - 1) + "0";
      TenTimes(Number(s), Pow(10, n - 1));
    }
  }

  lemma {:induction false} NumberZerosBefore(n: nat, s: string)
    requires AllDigits(s)
    ensures AllDigits(Zeros(n) + s) && Number(Zeros(n) + s) == Number(s)
    decreases |s| + n
  {
    var t := Zeros(n) + s;
    JoinDigits(Zeros(n), s);
    if s != "" {
      assert t[..|t| - 1] == Zeros(n) + s[..|s| - 1];
      NumberZerosBefore(n, s[..|s| - 1]);
    } else if n > 0 {
      assert t[..|t| - 1] == Zeros(n - 1) + "";
      NumberZerosBefore(n - 1, "");
    }
  }

  lemma ExponentTextReads(e: int)
    requires -1000 < e < 1000
    ensures IsExponent(ExponentText(e)) && |ExponentText(e)| <= 4 && ExponentOf(ExponentText(e)) == e
    ensures ExponentText(e)[0] == if e < 0 then '-' else '+'
  {
    var t := ExponentText(e);
    var d := t[1..];
    var k := if e < 0 then -e else e;
    if k < 100 {
      var x, y := if k < 10 then '0' else Digit(k / 10), Digit(k % 10);
      assert d == [x, y];
      TwoDigits(x, y);
    } else {
      assert d == [Digit(k / 100), Digit(k % 100 / 10), Digit(k % 100 % 10)];
      ThreeDigits(Digit(k / 100), Digit(k % 100 / 10), Digit(k % 100 % 10));
    }
  }

  lemma TwoDigits(x: char, y: char)
    requires IsDigit(x) && IsDigit(y)
    ensures AllDigits([x, y]) && Number([x, y]) == 10 * (x as int - '0' as int) + (y as int - '0' as int)
  {
    assert [x][..0] == "";
    assert Number([x]) == 10 * Number("") + (x as int - '0' as int);
    assert [x, y][..1] == [x];
  }

  lemma ThreeDigits(x: char, y: char, z: char)
    requires IsDigit(x) && IsDigit(y) && IsDigit(z)
    ensures AllDigits([x, y, z])
    ensures Number([x, y, z]) == 100 * (x as int - '0' as int) + 10 * (y as int - '0' as int) + (z as int - '0' as int)
  {
    TwoDigits(x, y);
    assert [x, y, z][..2] == [x, y];
  }

  lemma ShiftPoint(d: nat, m: nat, e: int)
    ensures ((d * Pow(10, m)) as real) * Ten(e) == (d as real) * Ten(m + e)
  {
    hide Pow, Power;
    ProductAsReal(d, Pow(10, m));
    PowerUp(10, e, m);
    Associate(d as real, Pow(10, m) as real, Ten(e));
    assert Ten(e) * (Pow(10, m) as real) == (Pow(10, m) as real) * Ten(e);
  }

  predicate Denotes(s: string, x: real) {
    IsNumeral(s) && Meaning(s) == x
  }

  lemma TrailingZerosMean(digits: string, e: nat)
    requires |digits| >= 1 && AllDigits(digits)
    ensures Denotes(WholeForm(digits, e), Decimal(Number(digits), e))
  {
    hide IsMantissa, MantissaOf, IsNumeral, Meaning, Power, Ten, Number, Zeros;
    var a := digits + Zeros(e);
    NumberZerosBehind(digits, e + 1);
    NumberZerosBehind(digits, e);
    assert a + "0" == digits + Zeros(e + 1);
    DigitsHaveNo(a, 'e');
    PointedMantissa(a, "0");
    assert a + ".0" == a + "." + "0";
    PlainNumeral(a + ".0");
    ShiftPoint(Number(digits), e + 1, -1);
  }

  lemma InnerPointMeans(a: string, b: string)
    requires a != "" && b != "" && AllDigits(a) && AllDigits(b)
    ensures AllDigits(a + b) && Denotes(a + "." + b, Decimal(Number(a + b), -|b|))
  {
    hide IsMantissa, MantissaOf, IsNumeral, Meaning, Power, Ten, Number;
    JoinDigits(a, b);
    PointedMantissa(a, b);
    DigitsHaveNo(a, 'e');
    DigitsHaveNo(b, 'e');
    PlainNumeral(a + "." + b);
  }

  lemma LeadingZerosMean(digits: string, n: nat)
    requires |digits| >= 1 && AllDigits(digits)
    ensures Denotes(FractionForm(digits, n), Decimal(Number(digits), -(n + |digits|)))
  {
    hide IsNumeral, Meaning, Power, Ten, Number, Zeros;
    var b := Zeros(n) + digits;
    JoinDigits(Zeros(n), digits);
    NumberZerosBefore(n + 1, digits);
    assert "0" + b == Zeros(n + 1) + digits;
    InnerPointMeans("0", b);
    assert "0." + Zeros(n) + digits == "0" + "." + b;
  }

  lemma OneDigitMeans(digits: string, e: int)
    requires |digits| == 1 && AllDigits(digits) && -1000 < e < 1000
    ensures Denotes(ExponentForm(digits, e), Decimal(Number(digits), e))
  {
    hide IsMantissa, MantissaOf, IsNumeral, Meaning, Power, Ten, Number, ExponentText, IsExponent, ExponentOf;
    ExponentTextReads(e);
    DigitsHaveNo(digits, 'e');
    PlainMantissa(digits);
    ScaledNumeral(digits, ExponentText(e));
  }

  lemma PlainMantissa(s: string)
    requires s != "" && AllDigits(s)
    ensures IsMantissa(s) && MantissaOf(s) == Number(s) as real
  {
    hide FirstOf, Number, Power, Ten;
    DigitsHaveNo(s, '.');
    FirstOfConcat(s, '.', "");
    assert s[..|s|] == s;
  }

  lemma ScientificMeans(a: string, b: string, e: int)
    requires a != "" && b != "" && AllDigits(a) && AllDigits(b) && -1000 < e < 1000
    ensures AllDigits(a + b)
    ensures Denotes(a + "." + b + "e" + ExponentText(e), Decimal(Number(a + b), e - |b|))
  {
    hide IsMantissa, MantissaOf, IsNumeral, Meaning, Power, Ten, Number, ExponentText, IsExponent, ExponentOf;
    ExponentTextReads(e);
    JoinDigits(a, b);
    PointedMantissa(a, b);
    DigitsHaveNo(a, 'e');
    DigitsHaveNo(b, 'e');
    ScaledNumeral(a + "." + b, ExponentText(e));
    TenAdd(-|b|, e);
    Associate(Number(a + b) as real, Ten(-|b|), Ten(e));
  }

  /** Without a leading zero in the digits there is none in the text. */
  lemma FormattedIsJson(digits: string, decimalExponent: int, minExp: int, maxExp: int)
    requires |digits| >= 1 && AllDigits(digits) && -1000 < |digits| + decimalExponent - 1 < 1000
    requires digits[0] != '0'
    ensures IsJsonNumber(Formatted(digits, decimalExponent, minExp, maxExp))
  {
    hide IsNumeral, Meaning, Number, ExponentText, Decimal;
    FormattedMeans(digits, decimalExponent, minExp, maxExp);
  }

  /** An exponent is written exactly outside the fixed-point range, and every text shows by a
      point or an exponent that it is a floating-point number. */
  lemma FormChosen(digits: string, decimalExponent: int, minExp: int, maxExp: int)
    requires |digits| >= 1 && AllDigits(digits) && -1000 < |digits| + decimalExponent - 1 < 1000
    requires minExp < 0 < maxExp
    ensures var s, n := Formatted(digits, decimalExponent, minExp, maxExp), |digits| + decimalExponent;
            ('e' in s <==> !(minExp < n <= maxExp)) && ('.' in s || 'e' in s)
  {
    hide WholeForm, PointForm, FractionForm, ExponentForm;
    var k, n := |digits|, |digits| + decimalExponent;
    DigitsHaveNo(digits, 'e');
    if k <= n <= maxExp {
      WholeHasPoint(digits, n - k);
    } else if 0 < n <= maxExp {
      PointHasPoint(digits, n);
    } else if minExp < n <= 0 {
      FractionHasPoint(digits, -n);
    } else {
      ExponentHasExponent(digits, n - 1);
    }
  }

  lemma WholeHasPoint(digits: string, zeros: nat)
    requires 'e' !in digits
    ensures '.' in WholeForm(digits, zeros) && 'e' !in WholeForm(digits, zeros)
  {
    DigitsHaveNo(Zeros(zeros), 'e');
    assert WholeForm(digits, zeros)[|digits| + zeros] == '.';
  }

  lemma PointHasPoint(digits: string, n: nat)
    requires 'e' !in digits && n <= |digits|
    ensures '.' in PointForm(digits, n) && 'e' !in PointForm(digits, n)
  {
    assert PointForm(digits, n)[n] == '.';
  }

  lemma FractionHasPoint(digits: string, zeros: nat)
    requires 'e' !in digits
    ensures '.' in FractionForm(digits, zeros) && 'e' !in FractionForm(digits, zeros)
  {
    DigitsHaveNo(Zeros(zeros), 'e');
    assert FractionForm(digits, zeros)[1] == '.';
  }

  lemma ExponentHasExponent(digits: string, e: int)
    requires |digits| >= 1 && -1000 < e < 1000
    ensures 'e' in ExponentForm(digits, e)
  {
    hide ExponentText;
    assert ExponentForm(digits, e)[if |digits| == 1 then 1 else |digits| + 1] == 'e';
  }

  lemma SplitDigits(s: string, n: nat)
    requires AllDigits(s) && n <= |s|
    ensures AllDigits(s[..n]) && AllDigits(s[n..]) && s[..n] + s[n..] == s
  {
  }

  lemma ManyDigitsMean(digits: string, e: int)
    requires |digits| > 1 && AllDigits(digits) && -1000 < e < 1000
    ensures Denotes(ExponentForm(digits, e), Decimal(Number(digits), e + 1 - |digits|))
  {
    hide Denotes, Decimal, Number, ExponentText, AllDigits;
    SplitDigits(digits, 1);
    ScientificMeans(digits[..1], digits[1..], e);
  }

  /** The exponent form, with one digit or more. */
  lemma ExponentFormMeans(digits: string, e: int)
    requires |digits| >= 1 && AllDigits(digits) && -1000 < e < 1000
    ensures Denotes(ExponentForm(digits, e), Decimal(Number(digits), e + 1 - |digits|))
  {
    hide Denotes, Decimal, Number, ExponentForm, AllDigits;
    if |digits| == 1 {
      OneDigitMeans(digits, e);
    } else {
      ManyDigitsMean(digits, e);
    }
  }

  lemma PointFormMeans(digits: string, n: nat)
    requires AllDigits(digits) && 0 < n < |digits|
    ensures Denotes(PointForm(digits, n), Decimal(Number(digits), n - |digits|))
  {
    hide Denotes, Decimal, Number, AllDigits;
    SplitDigits(digits, n);
    InnerPointMeans(digits[..n], digits[n..]);
  }

  /** The text denotes exactly digits * 10^exponent, in every one of its forms. */
  lemma FormattedMeans(digits: string, decimalExponent: int, minExp: int, maxExp: int)
    requires |digits| >= 1 && AllDigits(digits) && -1000 < |digits| + decimalExponent - 1 < 1000
    ensures Denotes(Formatted(digits, decimalExponent, minExp, maxExp), Decimal(Number(digits), decimalExponent))
  {
    hide Denotes, Decimal, Number, WholeForm, PointForm, FractionForm, ExponentForm, AllDigits;
    var n := |digits| + decimalExponent;
    if |digits| <= n <= maxExp {
      TrailingZerosMean(digits, decimalExponent);
    } else if 0 < n <= maxExp {
      PointFormMeans(digits, n);
    } else if minExp < n <= 0 {
      LeadingZerosMean(digits, -n);
    } else {
      ExponentFormMeans(digits, n - 1);
    }
  }

  // ----- the form of the text -----------------------------------------------------------

  /** The last of these decimals is needed. */
  predicate Needed(decimals: string) {
    decimals != "" && AllDigits(decimals) && decimals[|decimals| - 1] != '0'
  }

  /** Fixed form: digits without superfluous zeros in front, a point, and decimals without
      superfluous zeros behind; at least one of each. */
  predicate FixedForm(s: string) {
    var p := FirstOf(s, '.');
    && 0 < p < |s| - 1
    && AllDigits(s[..p]) && (p > 1 ==> s[0] != '0')
    && (s[p + 1..] == "0" || Needed(s[p + 1..]))
  }

  /** Exponent form: one digit other than zero, decimals behind a point if they are needed, "e",
      a sign, and two digits, or three if there must be three. */
  predicate ScientificForm(s: string) {
    var p := FirstOf(s, 'e');
    && p < |s|
    && s[0] in "123456789" && (p == 1 || (p > 1 && s[1] == '.' && Needed(s[2..p])))
    && var x := s[p + 1..];
       |x| in {3, 4} && (x[0] == '+' || x[0] == '-') && AllDigits(x[1..]) && (|x| == 4 ==> x[1] != '0')
  }

  lemma PointedForm(a: string, b: string)
    requires a != "" && AllDigits(a) && (|a| > 1 ==> a[0] != '0') && (b == "0" || Needed(b))
    ensures FixedForm(a + "." + b)
  {
    hide FirstOf;
    DigitsHaveNo(a, '.');
    FirstOfConcat(a, '.', b);
    CutAt(a, '.', b);
  }

  lemma ScaledForm(m: string, e: int)
    requires 'e' !in m && m != "" && m[0] in "123456789" && -1000 < e < 1000
    requires |m| == 1 || (|m| > 1 && m[1] == '.' && Needed(m[2..]))
    ensures ScientificForm(m + "e" + ExponentText(e))
  {
    hide FirstOf, ExponentText, Needed;
    FirstOfConcat(m, 'e', ExponentText(e));
    CutAt(m, 'e', ExponentText(e));
    ExponentDigits(e);
    var s := m + "e" + ExponentText(e);
    if |m| > 1 { assert s[2..|m|] == m[2..]; }
  }

  lemma ExponentDigits(e: int)
    requires -1000 < e < 1000
    ensures var x := ExponentText(e);
            |x| in {3, 4} && (x[0] == '+' || x[0] == '-') && AllDigits(x[1..]) && (|x| == 4 ==> x[1] != '0')
  {
  }

  lemma PositiveDigit(c: char)
    requires IsDigit(c) && c != '0'
    ensures c in "123456789"
  {
    assert "123456789"[c as int - '1' as int] == c;
  }

  /** The parts of digits that are cut. */
  lemma NeededRest(digits: string, n: nat)
    requires Needed(digits) && n < |digits|
    ensures Needed(digits[n..]) && AllDigits(digits[..n])
  {
  }

  lemma WholeFormFixed(digits: string, zeros: nat)
    requires Needed(digits) && digits[0] != '0'
    ensures FixedForm(WholeForm(digits, zeros))
  {
    hide FixedForm;
    var a := digits + Zeros(zeros);
    JoinDigits(digits, Zeros(zeros));
    PointedForm(a, "0");
    assert WholeForm(digits, zeros) == a + "." + "0";
  }

  lemma PointFormFixed(digits: string, n: nat)
    requires Needed(digits) && digits[0] != '0' && 0 < n < |digits|
    ensures FixedForm(PointForm(digits, n))
  {
    hide FixedForm, Needed;
    NeededRest(digits, n);
    PointedForm(digits[..n], digits[n..]);
  }

  lemma FractionFormFixed(digits: string, zeros: nat)
    requires Needed(digits)
    ensures FixedForm(FractionForm(digits, zeros))
  {
    hide FixedForm;
    var b := Zeros(zeros) + digits;
    JoinDigits(Zeros(zeros), digits);
    PointedForm("0", b);
    assert FractionForm(digits, zeros) == "0" + "." + b;
  }

  lemma ExponentFormScientific(digits: string, e: int)
    requires Needed(digits) && digits[0] != '0' && -1000 < e < 1000
    ensures ScientificForm(ExponentForm(digits, e))
  {
    hide ScientificForm, ExponentText;
    PositiveDigit(digits[0]);
    DigitsHaveNo(digits, 'e');
    if |digits| == 1 {
      ScaledForm(digits, e);
    } else {
      NeededRest(digits, 1);
      var m := digits[..1] + "." + digits[1..];
      assert m[2..] == digits[1..];
      ScaledForm(m, e);
    }
  }

  /** Digits without zeros at either end give a text without superfluous ones. */
  lemma FormattedForm(digits: string, decimalExponent: int, minExp: int, maxExp: int)
    requires Needed(digits) && digits[0] != '0' && -1000 < |digits| + decimalExponent - 1 < 1000 && minExp < 0 < maxExp
    ensures var s, n := Formatted(digits, decimalExponent, minExp, maxExp), |digits| + decimalExponent;
            if minExp < n <= maxExp then FixedForm(s) else ScientificForm(s)
  {
    hide WholeForm, PointForm, FractionForm, ExponentForm, FixedForm, ScientificForm, Needed;
    var k, n := |digits|, |digits| + decimalExponent;
    if k <= n <= maxExp {
      WholeFormFixed(digits, n - k);
    } else if 0 < n <= maxExp {
      PointFormFixed(digits, n);
    } else if minExp < n <= 0 {
      FractionFormFixed(digits, -n);
    } else {
      ExponentFormScientific(digits, n - 1);
    }
  }

  // ----- writing it in place ------------------------------------------------------------

  /** `memset` */
  method Fill(buf: array<char>, at: nat, c: char, count: nat)
    requires at + count <= buf.Length
    modifies buf
    ensures forall i | 0 <= i < buf.Length :: buf[i] == if at <= i < at + count then c else old(buf[i])
  {
    forall i | at <= i < at + count {
      buf[i] := c;
    }
  }

  /** `memmove`: the two ranges may overlap. */
  method Move(buf: array<char>, to: nat, from: nat, count: nat)
    requires to + count <= buf.Length && from + count <= buf.Length
    modifies buf
    ensures buf[..] == Moved(old(buf[..]), to, from, count)
  {
    hide Moved;
    forall i | to <= i < to + count {
      buf[i] := buf[from + (i - to)];
    }
    MovedIs(old(buf[..]), buf[..], to, from, count);
  }

  lemma MovedIs(was: string, now: string, to: nat, from: nat, count: nat)
    requires to + count <= |was| == |now| && from + count <= |was|
    requires forall i | 0 <= i < |was| :: now[i] == if to <= i < to + count then was[from + (i - to)] else was[i]
    ensures now == Moved(was, to, from, count)
  {
    hide Moved;
    forall i | 0 <= i < |was| ensures now[i] == Moved(was, to, from, count)[i] {
      MovedAt(was, to, from, count, i);
    }
  }

  /** What a move leaves. */
  function Moved(s: string, to: nat, from: nat, count: nat): (r: string)
    requires to + count <= |s| && from + count <= |s|
    ensures |r| == |s|
  {
    s[..to] + s[from..from + count] + s[to + count..]
  }

  lemma MovedAt(s: string, to: nat, from: nat, count: nat, i: nat)
    requires to + count <= |s| && from + count <= |s| && i < |s|
    ensures Moved(s, to, from, count)[i] == if to <= i < to + count then s[from + (i - to)] else s[i]
  {
  }

  /** `*buf++ = c` */
  method Put(buf: array<char>, at: nat, c: char) returns (end: nat)
    requires at < buf.Length
    modifies buf
    ensures end == at + 1 && buf[..end] == old(buf[..at]) + [c]
  {
    buf[at] := c;
    end := at + 1;
  }

  /** `append_exponent` */
  method AppendExponent(buf: array<char>, at: nat, exponent: int) returns (end: nat)
    requires -1000 < exponent < 1000 && at + 4 <= buf.Length
    modifies buf
    ensures end <= buf.Length && buf[..end] == old(buf[..at]) + ExponentText(exponent)
  {
    ghost var before := buf[..at];
    var e := exponent;
    if e < 0 {
      e := -e;
      end := Put(buf, at, '-');
    } else {
      end := Put(buf, at, '+');
    }
    ghost var sign := if exponent < 0 then "-" else "+";
    var k := e;
    if k < 10 {
      end := Put(buf, end, '0');
      end := Put(buf, end, Digit(k));
      Regroup2(before, sign, '0', Digit(k));
    } else if k < 100 {
      end := Put(buf, end, Digit(k / 10));
      k := k % 10;
      end := Put(buf, end, Digit(k));
      Regroup2(before, sign, Digit(e / 10), Digit(k));
    } else {
      end := Put(buf, end, Digit(k / 100));
      k := k % 100;
      end := Put(buf, end, Digit(k / 10));
      k := k % 10;
      end := Put(buf, end, Digit(k));
      Regroup3(before, sign, Digit(e / 100), Digit(e % 100 / 10), Digit(k));
    }
  }

  lemma Regroup2(s: string, t: string, a: char, b: char)
    ensures s + t + [a] + [b] == s + (t + [a, b])
  {
  }

  lemma Regroup3(s: string, t: string, a: char, b: char, c: char)
    ensures s + t + [a] + [b] + [c] == s + (t + [a, b, c])
  {
  }

  /** Room is made for a point after the first `n` digits. */
  method InsertPoint(buf: array<char>, first: nat, length: nat, n: nat)
    requires n <= length && first + length < buf.Length
    modifies buf
    ensures buf[..first + length + 1] == old(buf[..first]) + PointForm(old(buf[..][first..first + length]), n)
  {
    hide PointForm, Moved;
    ghost var was := buf[..];
    Move(buf, first + n + 1, first + n, length - n);
    buf[first + n] := '.';
    PointInserted(was, buf[..], first, length, n);
  }

  lemma PointInserted(was: string, now: string, first: nat, length: nat, n: nat)
    requires n <= length && first + length < |was|
    requires now == Moved(was, first + n + 1, first + n, length - n)[first + n := '.']
    ensures now[..first + length + 1] == was[..first] + PointForm(was[first..first + length], n)
  {
    hide PointForm, Moved;
    var digits := was[first..first + length];
    PointFormLength(digits, n);
    forall i | 0 <= i <= length ensures now[first + i] == PointForm(digits, n)[i] {
      PointFormAt(digits, n, i);
      MovedAt(was, first + n + 1, first + n, length - n, first + i);
    }
    forall i | 0 <= i < first ensures now[i] == was[i] {
      MovedAt(was, first + n + 1, first + n, length - n, i);
    }
    Written(was, now, first, PointForm(digits, n));
  }

  lemma PointFormLength(digits: string, n: nat)
    requires n <= |digits|
    ensures |PointForm(digits, n)| == |digits| + 1
  {
  }

  lemma PointFormAt(digits: string, n: nat, i: nat)
    requires n <= |digits| && i <= |digits|
    ensures |PointForm(digits, n)| == |digits| + 1
    ensures PointForm(digits, n)[i] == if i < n then digits[i] else if i == n then '.' else digits[i - 1]
  {
  }

  /** Zeros and a point are put before the digits. */
  method PrependZeros(buf: array<char>, first: nat, length: nat, zeros: nat)
    requires first + length + zeros + 2 <= buf.Length
    modifies buf
    ensures buf[..first + length + zeros + 2] ==
            old(buf[..first]) + FractionForm(old(buf[..][first..first + length]), zeros)
  {
    hide FractionForm, Moved, Zeros;
    ghost var was := buf[..];
    Move(buf, first + 2 + zeros, first, length);
    ghost var moved := buf[..];
    buf[first], buf[first + 1] := '0', '.';
    Fill(buf, first + 2, '0', zeros);
    FractionWritten(was, moved, buf[..], first, length, zeros);
  }

  lemma FractionWritten(was: string, moved: string, now: string, first: nat, length: nat, zeros: nat)
    requires first + length + zeros + 2 <= |was| == |now|
    requires moved == Moved(was, first + 2 + zeros, first, length)
    requires forall i | 0 <= i < |now| ::
               now[i] == if first + 2 <= i < first + 2 + zeros then '0' else moved[first := '0'][first + 1 := '.'][i]
    ensures now[..first + length + zeros + 2] ==
            was[..first] + FractionForm(was[first..first + length], zeros)
  {
    hide FractionForm, Moved;
    var digits := was[first..first + length];
    FractionFormLength(digits, zeros);
    forall i | 0 <= i < length + zeros + 2 ensures now[first + i] == FractionForm(digits, zeros)[i] {
      FractionFormAt(digits, zeros, i);
      MovedAt(was, first + 2 + zeros, first, length, first + i);
    }
    forall i | 0 <= i < first ensures now[i] == was[i] {
      MovedAt(was, first + 2 + zeros, first, length, i);
    }
    Written(was, now, first, FractionForm(digits, zeros));
  }

  lemma FractionFormLength(digits: string, zeros: nat)
    ensures |FractionForm(digits, zeros)| == |digits| + zeros + 2
  {
  }

  lemma FractionFormAt(digits: string, zeros: nat, i: nat)
    requires i < |digits| + zeros + 2
    ensures |FractionForm(digits, zeros)| == |digits| + zeros + 2
    ensures FractionForm(digits, zeros)[i] ==
            if i == 1 then '.' else if i < zeros + 2 then '0' else digits[i - (zeros + 2)]
  {
  }

  /** Zeros and ".0" are put behind the digits. */
  method AppendZeros(buf: array<char>, first: nat, length: nat, zeros: nat)
    requires first + length + zeros + 2 <= buf.Length
    modifies buf
    ensures buf[..first + length + zeros + 2] ==
            old(buf[..first]) + WholeForm(old(buf[..][first..first + length]), zeros)
  {
    hide WholeForm;
    ghost var was := buf[..];
    ghost var digits := was[first..first + length];
    Fill(buf, first + length, '0', zeros);
    buf[first + length + zeros] := '.';
    buf[first + length + zeros + 1] := '0';
    WholeFormLength(digits, zeros);
    forall i | 0 <= i < length + zeros + 2 ensures buf[..][first + i] == WholeForm(digits, zeros)[i] {
      WholeFormAt(digits, zeros, i);
      var at := first + i;
      if i < length { assert buf[at] == was[at] == digits[i]; }
    }
    Written(was, buf[..], first, WholeForm(digits, zeros));
  }

  lemma WholeFormLength(digits: string, zeros: nat)
    ensures |WholeForm(digits, zeros)| == |digits| + zeros + 2
  {
  }

  lemma WholeFormAt(digits: string, zeros: nat, i: nat)
    requires i < |digits| + zeros + 2
    ensures |WholeForm(digits, zeros)| == |digits| + zeros + 2
    ensures WholeForm(digits, zeros)[i] ==
            if i < |digits| then digits[i] else if i == |digits| + zeros then '.' else '0'
  {
  }

  /** The last two cases of `format_buffer`. */
  method WriteExponentForm(buf: array<char>, first: nat, length: nat, exponent: int) returns (end: nat)
    requires 1 <= length && first + length + 6 <= buf.Length && -1000 < exponent < 1000
    modifies buf
    ensures first <= end <= buf.Length
    ensures buf[..end] == old(buf[..first]) + ExponentForm(old(buf[..][first..first + length]), exponent)
  {
    hide ExponentText;
    ghost var before, digits := buf[..first], buf[..][first..first + length];
    var at;
    if length == 1 {
      at := first + 1;
      assert buf[..at] == before + digits;
    } else {
      InsertPoint(buf, first, length, 1);
      at := first + 1 + length;
    }
    ghost var mantissa := if length == 1 then digits else PointForm(digits, 1);
    assert buf[..at] == before + mantissa;
    buf[at], at := 'e', at + 1;
    assert buf[..at] == before + mantissa + "e";
    end := AppendExponent(buf, at, exponent);
    ExponentFormParts(before, digits, mantissa, exponent);
  }

  lemma ExponentFormParts(before: string, digits: string, mantissa: string, e: int)
    requires |digits| >= 1 && -1000 < e < 1000 && mantissa == if |digits| == 1 then digits else PointForm(digits, 1)
    ensures before + mantissa + "e" + ExponentText(e) == before + ExponentForm(digits, e)
  {
    hide ExponentText;
  }

  /** `format_buffer`: the digits from `first` on become the text. */
  method FormatInPlace(buf: array<char>, first: nat, length: nat, decimalExponent: int, minExp: int, maxExp: int)
    returns (end: nat)
    requires minExp < 0 < maxExp
    requires 1 <= length && -1000 < length + decimalExponent - 1 < 1000
    requires first + maxExp + 2 <= buf.Length && first + length + 1 - minExp <= buf.Length
    requires first + length + 6 <= buf.Length
    modifies buf
    ensures first <= end <= buf.Length
    ensures buf[..end] ==
            old(buf[..first]) + Formatted(old(buf[..][first..first + length]), decimalExponent, minExp, maxExp)
  {
    hide WholeForm, PointForm, FractionForm, ExponentForm;
    var k, n := length, length + decimalExponent;
    if k <= n <= maxExp {
      AppendZeros(buf, first, k, n - k);
      end := first + n + 2;
    } else if 0 < n <= maxExp {
      InsertPoint(buf, first, k, n);
      end := first + k + 1;
    } else if minExp < n <= 0 {
      PrependZeros(buf, first, k, -n);
      end := first + 2 - n + k;
    } else {
      end := WriteExponentForm(buf, first, k, n - 1);
    }
  }
}
