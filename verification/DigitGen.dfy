/**
 Digit generation: the shortest decimal number in an interval, and among the decimal
 numbers of that length the one nearest to a given point.

 All numbers share a binary exponent e with -60 <= e <= -32 and are written by their
 significands; 10^n is then 10^n * 2^-e units.
 */
module DigitGen {
  import opened Powers
  import opened DiyFp
  import opened Digits
  import opened Words
  import opened Buffers

  type uint32 = x: int | 0 <= x < TWO_32

  // ----- what is promised -------------------------------------------------------

  /** The significands of M-, w and M+, and of the number one. */
  datatype Interval = Interval(minus: nat, w: nat, plus: nat, one: nat)

  /** 10^n in units; for negative n all numbers are first multiplied by 10^-n. */
  function Unit(n: int, one: nat): nat {
    if n >= 0 then Pow(10, n) * one else one
  }

  function Scale(n: int): nat {
    if n >= 0 then 1 else Pow(10, -n)
  }

  /** d * 10^n lies in [M-, M+]. */
  predicate Inside(i: Interval, d: int, n: int) {
    i.minus * Scale(n) <= d * Unit(n, i.one) <= i.plus * Scale(n)
  }

  function Gap(x: int, y: int): nat {
    if x < y then y - x else x - y
  }

  /** How far d * 10^n is from w. */
  function Off(i: Interval, d: int, n: int): nat {
    Gap(d * Unit(n, i.one), i.w * Scale(n))
  }

  /** No multiple of 10^n lies in the interval. */
  ghost predicate NoneInside(i: Interval, n: int) {
    forall d: int :: !Inside(i, d, n)
  }

  /** d * 10^n lies in the interval, no other multiple of 10^n there is nearer to w, and of two
      that are equally near it is the larger. */
  ghost predicate Nearest(i: Interval, d: int, n: int) {
    Inside(i, d, n) &&
    forall o: int :: Inside(i, o, n) ==> Off(i, d, n) < Off(i, o, n) || (Off(i, d, n) == Off(i, o, n) && o <= d)
  }

  // ----- arithmetic ---------------------------------------------------------------

  lemma StrictMono(x: nat, a: int, b: int)
    requires a < b && x > 0
    ensures x * a + x <= x * b
  {
    Mono(x, a + 1, b);
  }

  /** Powers of ten up to 10^10, and 10^19 against 2^60. */
  lemma SmallTens()
    ensures Pow(10, 0) == 1 && Pow(10, 1) == 10 && Pow(10, 2) == 100 && Pow(10, 3) == 1000
    ensures Pow(10, 4) == 10000 && Pow(10, 5) == 100000 && Pow(10, 6) == 1000000
    ensures Pow(10, 7) == 10000000 && Pow(10, 8) == 100000000 && Pow(10, 9) == 1000000000
    ensures Pow(10, 10) == 10000000000 && Pow(10, 16) == 10000000000000000 && Pow(10, 19) == 10000000000000000000
  {
    assert Pow(10, 4) == 10000;
    PowAdd(10, 4, 1);
    PowAdd(10, 4, 2);
    PowAdd(10, 4, 3);
    PowAdd(10, 4, 4);
    PowAdd(10, 8, 1);
    PowAdd(10, 9, 1);
    PowAdd(10, 8, 8);
    PowAdd(10, 16, 3);
  }

  /** `find_largest_pow10`: the number of digits, and the power of ten of the first one. */
  function FindLargestPow10(n: uint32): (r: (nat, uint32))
    ensures 1 <= r.0 <= 10 && r.1 == Pow(10, r.0 - 1)
    ensures n < Pow(10, r.0) && (n != 0 ==> r.1 <= n)
  {
    SmallTens();
    if n >= 1000000000 then (10, 1000000000)
    else if n >= 100000000 then (9, 100000000)
    else if n >= 10000000 then (8, 10000000)
    else if n >= 1000000 then (7, 1000000)
    else if n >= 100000 then (6, 100000)
    else if n >= 10000 then (5, 10000)
    else if n >= 1000 then (4, 1000)
    else if n >= 100 then (3, 100)
    else if n >= 10 then (2, 10)
    else (1, 1)
  }

  // ----- rounding -------------------------------------------------------------------

  function DigitOf(c: char): int { c as int - '0' as int }

  /** Among `rest`, `rest` + u, `rest` + 2 u, ... up to `delta` none is nearer to `dist` than the
      one after so many steps, and none before it is as near. */
  ghost predicate FirstNearest(rest: int, u: nat, delta: int, dist: int, steps: nat) {
    && rest + steps * u <= delta
    && (forall j: nat :: rest + j * u <= delta ==> Gap(rest + steps * u, dist) <= Gap(rest + j * u, dist))
    && (forall j: nat :: j < steps ==> Gap(rest + steps * u, dist) < Gap(rest + j * u, dist))
  }

  /** `grisu2_round`: decrement the last digit while that brings the number nearer to w.
      `dist` is the distance of w, `rest` that of the number from the upper end of an
      interval of width `delta`, and `tenK` what one in the last digit is worth.  The
      library asserts that the digit is not '0' when it is decremented; the callers ensure
      this by the last precondition: emptying the digit would leave the interval. */
  method Round(buf: array<char>, len: nat, dist: uint64, delta: uint64, rest0: uint64, tenK: uint64)
    returns (ghost steps: nat)
    requires 1 <= len <= buf.Length && dist <= delta && rest0 <= delta && tenK > 0
    requires IsDigit(buf[len - 1]) && rest0 + DigitOf(buf[len - 1]) * tenK > delta
    modifies buf
    ensures forall i | 0 <= i < buf.Length && i != len - 1 :: buf[i] == old(buf[i])
    ensures IsDigit(buf[len - 1]) && DigitOf(buf[len - 1]) == old(DigitOf(buf[len - 1])) - steps
    ensures FirstNearest(rest0, tenK, delta, dist, steps)
  {
    var rest := rest0;
    steps := 0;
    while rest < dist && delta - rest >= tenK &&
          (rest + tenK < dist || dist - rest > rest + tenK - dist)
      invariant rest == rest0 + steps * tenK <= delta
      invariant forall i | 0 <= i < buf.Length && i != len - 1 :: buf[i] == old(buf[i])
      invariant IsDigit(buf[len - 1]) && DigitOf(buf[len - 1]) == old(DigitOf(buf[len - 1])) - steps
      invariant steps < old(DigitOf(buf[len - 1]))
      invariant forall j: nat :: j < steps ==> Gap(rest, dist) < Gap(rest0 + j * tenK, dist)
      decreases delta - rest
    {
      var digit := old(DigitOf(buf[len - 1]));
      NextStep(steps, tenK);
      if steps + 1 >= digit { Mono(tenK, digit, steps + 1); }
      assert buf[len - 1] != '0';
      buf[len - 1] := (buf[len - 1] as int - 1) as char;
      rest := rest + tenK;
      steps := steps + 1;
    }
    forall j: nat | rest0 + j * tenK <= delta
      ensures Gap(rest0 + steps * tenK, dist) <= Gap(rest0 + j * tenK, dist)
    {
      if j > steps { StrictMono(tenK, steps, j); }
    }
  }

  lemma NextStep(j: nat, t: nat)
    ensures (j + 1) * t == j * t + t
  {
  }

  // ----- generating digits ------------------------------------------------------------

  /** The largest multiple of 10^n not above the upper end, with what is left over it. */
  predicate Floor(i: Interval, d: nat, n: int, rest: int) {
    i.plus * Scale(n) == d * Unit(n, i.one) + rest && 0 <= rest < Unit(n, i.one)
  }

  /** What is left over reaches below the interval: no multiple of 10^n lies inside. */
  lemma NoMultiple(i: Interval, d: nat, n: int, rest: nat)
    requires i.minus <= i.plus && Floor(i, d, n, rest) && rest > (i.plus - i.minus) * Scale(n)
    ensures NoneInside(i, n)
  {
    var u, s := Unit(n, i.one), Scale(n);
    Difference(i.plus, i.minus, s);
    forall o: int ensures !Inside(i, o, n) {
      if o > d { StrictMono(u, d, o); } else { Mono(u, o, d); }
    }
  }

  lemma Difference(x: int, y: int, s: int)
    ensures (x - y) * s == x * s - y * s
  {
  }

  /** One more digit of the upper end. */
  lemma FloorStep(i: Interval, d: nat, n: int, rest: nat, digit: nat, more: nat)
    requires Floor(i, d, n + 1, rest)
    requires (if n >= 0 then rest else 10 * rest) == digit * Unit(n, i.one) + more && more < Unit(n, i.one)
    ensures Floor(i, 10 * d + digit, n, more)
  {
    hide Unit, Scale;
    var u := Unit(n, i.one);
    Distribute(d, digit, u);
    UnitStep(n, i.one);
    if n >= 0 {
      TimesTen(d, u);
    } else {
      TimesTen(i.plus, Scale(n + 1));
    }
  }

  lemma UnitStep(n: int, one: nat)
    ensures n >= 0 ==> Unit(n + 1, one) == 10 * Unit(n, one) && Scale(n) == Scale(n + 1) == 1
    ensures n < 0 ==> Unit(n + 1, one) == Unit(n, one) == one && Scale(n) == 10 * Scale(n + 1)
  {
    if n >= 0 {
      Factor(Pow(10, n), one);
    } else {
      assert Pow(10, 0) == 1;
    }
  }

  lemma TimesTen(d: nat, u: nat)
    ensures d * (10 * u) == 10 * (d * u)
  {
  }

  lemma Distribute(d: nat, digit: nat, u: nat)
    ensures (10 * d + digit) * u == 10 * (d * u) + digit * u
  {
  }

  lemma Factor(p: nat, one: nat)
    ensures (10 * p) * one == 10 * (p * one)
  {
  }

  function DigitChar(d: nat): (c: char)
    requires d <= 9
    ensures IsDigit(c) && DigitOf(c) == d
  {
    ('0' as int + d) as char
  }

  lemma NumberAppend(s: string, c: char)
    requires AllDigits(s) && IsDigit(c)
    ensures AllDigits(s + [c]) && Number(s + [c]) == 10 * Number(s) + DigitOf(c)
  {
    assert (s + [c])[..|s|] == s;
  }

  lemma FloorStart(i: Interval, p1: nat, p2: nat, k: nat)
    requires Joined(p1, p2, i.one) == i.plus && p2 < i.one && p1 < Pow(10, k)
    ensures Floor(i, 0, k, i.plus)
  {
    StrictMono(i.one, p1, Pow(10, k));
  }

  /** Splitting off the leading digit of p1. */
  lemma IntegralStep(p1: nat, pow10: nat, p2: nat, one: nat)
    requires pow10 > 0 && p1 < 10 * pow10 && p2 < one
    ensures var d, r := p1 / pow10, p1 % pow10;
            && d <= 9
            && p1 * one + p2 == d * (pow10 * one) + (r * one + p2)
            && r * one + p2 < pow10 * one
  {
    var d, r := p1 / pow10, p1 % pow10;
    assert p1 == pow10 * d + r;
    if d >= 10 { Mono(pow10, 10, d); }
    assert (pow10 * d) * one == d * (pow10 * one);
    assert (pow10 * d + r) * one == (pow10 * d) * one + r * one;
    StrictMono(one, r, pow10);
  }

  /** The leading digit, worth `unit`, and what follows it. */
  function Leading(x: nat, unit: nat): (r: (nat, nat))
    requires unit > 0
    ensures r.0 <= x && r.1 <= x
  {
    DivModBelow(x, unit);
    (x / unit, x % unit)
  }

  lemma DivModBelow(x: nat, y: nat)
    requires y > 0
    ensures x / y <= x && x % y <= x
  {
    var q := x / y;
    assert x == y * q + x % y;
    if q > x { Mono(q, 1, y); }
    Mono(y, 0, q);
  }

  /** p1 and p2 put together again. */
  function Joined(p1: nat, p2: nat, one: nat): nat {
    p1 * one + p2
  }

  /** One turn of the first loop. */
  lemma IntegralTurn(i: Interval, digits: string, n: nat, p1: nat, pow10: nat, p2: nat)
    requires n > 0 && AllDigits(digits) && Floor(i, Number(digits), n, Joined(p1, p2, i.one))
    requires pow10 > 0 && pow10 == Pow(10, n - 1) && p1 < 10 * pow10 && p2 < i.one
    requires i.minus <= i.plus && Joined(p1, p2, i.one) > i.plus - i.minus
    ensures Leading(p1, pow10).0 <= 9 && NoneInside(i, n) && Leading(p1, pow10).1 < pow10
    ensures var more := digits + [DigitChar(Leading(p1, pow10).0)];
            var rest := Joined(Leading(p1, pow10).1, p2, i.one);
            AllDigits(more) && Floor(i, Number(more), n - 1, rest) && rest <= i.plus
  {
    hide Pow, Number, NoneInside, Floor, Unit, Scale, Leading, Joined;
    var (d, r) := Leading(p1, pow10);
    LeadingStep(n - 1, p1, pow10, p2, i.one);
    WidthUnscaled(i, n);
    NoMultiple(i, Number(digits), n, Joined(p1, p2, i.one));
    FloorStep(i, Number(digits), n - 1, Joined(p1, p2, i.one), d, Joined(r, p2, i.one));
    NumberAppend(digits, DigitChar(d));
    RestBelowPlus(i, Number(digits + [DigitChar(d)]), n - 1, Joined(r, p2, i.one));
  }

  lemma LeadingStep(n: nat, p1: nat, pow10: nat, p2: nat, one: nat)
    requires pow10 > 0 && pow10 == Pow(10, n) && p1 < 10 * pow10 && p2 < one
    ensures var (d, r) := Leading(p1, pow10);
            && d <= 9 && r < pow10
            && Joined(p1, p2, one) == d * Unit(n, one) + Joined(r, p2, one)
            && Joined(r, p2, one) < Unit(n, one)
  {
    hide Pow;
    IntegralStep(p1, pow10, p2, one);
    UnitOf(n, one);
  }

  lemma WidthUnscaled(i: Interval, n: nat)
    ensures (i.plus - i.minus) * Scale(n) == i.plus - i.minus
  {
  }

  lemma UnitOf(n: nat, one: nat)
    ensures Unit(n, one) == Pow(10, n) * one
  {
  }

  lemma RestBelowPlus(i: Interval, d: nat, n: nat, rest: int)
    requires Floor(i, d, n, rest)
    ensures rest <= i.plus
  {
    Mono(Unit(n, i.one), 0, d);
  }

  /** The first loop: digits of the integral part p1, from position `start` of the buffer on.
      It stops early (`done`) when what is left over fits into the interval. */
  method IntegralDigits(buffer: array<char>, start: nat, ghost i: Interval, p: uint32, p2: uint64, delta: uint64,
                        one: uint64, k: nat, firstPow10: uint32)
    returns (length: nat, n: int, rest: uint64, pow10: uint32, done: bool)
    requires i.one == one && i.minus <= i.plus && delta == i.plus - i.minus < i.plus < TWO_64
    requires Joined(p, p2, one) == i.plus && p2 < one
    requires 1 <= k && p < Pow(10, k) && firstPow10 == Pow(10, k - 1) <= p
    requires buffer.Length >= start + k
    modifies buffer
    ensures 0 <= n && start < length == start + k - n && OnlyChanged(old(buffer[..]), buffer[..], start, length)
    ensures buffer[start] != '0' && AllDigits(buffer[..][start..length])
    ensures Floor(i, Number(buffer[..][start..length]), n, rest)
    ensures done ==> rest <= delta && NoneInside(i, n + 1) && pow10 == Pow(10, n)
    ensures !done ==> n == 0 && rest == p2 > delta
  {
    hide Pow, Floor, Number, NoneInside, Joined, Leading, AllDigits, OnlyChanged;
    var p1: uint32 := p;
    length, n, pow10 := start, k, firstPow10;
    FloorStart(i, p, p2, k);
    NextPow10(k, Pow(10, k));
    NumberOfNone();
    NothingChanged(buffer[..], start, start);
    assert buffer[..][start..start] == "";
    while n > 0
      invariant 0 <= n <= k && length == start + k - n && OnlyChanged(old(buffer[..]), buffer[..], start, length)
      invariant AllDigits(buffer[..][start..length])
      invariant Floor(i, Number(buffer[..][start..length]), n, Joined(p1, p2, one))
      invariant delta < Joined(p1, p2, one)
      invariant n > 0 ==> pow10 == Pow(10, n - 1) && p1 < 10 * pow10
      invariant n == 0 ==> p1 == 0
      invariant if length == start then p1 == p && pow10 == firstPow10 else buffer[start] != '0'
    {
      var (d, r) := Leading(p1, pow10);
      LeadingPositive(p1, pow10);
      ghost var now := buffer[..];
      IntegralTurn(i, now[start..length], n, p1, pow10, p2);
      OneMore(old(buffer[..]), now, start, length, DigitChar(d));
      buffer[length] := DigitChar(d);
      assert buffer[..] == now[length := DigitChar(d)];
      length := length + 1;
      p1 := r;
      n := n - 1;
      rest := Joined(p1, p2, one);
      if rest <= delta {
        done := true;
        return;
      }
      NextPow10(n, pow10);
      pow10 := pow10 / 10;
    }
    JoinedZero(p2, one);
    done, rest := false, p2;
  }

  lemma LeadingPositive(x: nat, y: nat)
    requires y > 0
    ensures x >= y ==> Leading(x, y).0 > 0
  {
  }

  lemma JoinedZero(p2: nat, one: nat)
    ensures Joined(0, p2, one) == p2
  {
    assert 0 * one == 0;
  }

  lemma NumberOfNone()
    ensures AllDigits("") && Number("") == 0
  {
  }

  lemma NextPow10(n: nat, pow10: nat)
    requires pow10 == Pow(10, n)
    ensures n > 0 ==> pow10 / 10 == Pow(10, n - 1) && pow10 == 10 * (pow10 / 10)
    ensures n == 0 ==> pow10 == 1
  {
  }

  // ----- the fractional part ------------------------------------------------------------

  /** x multiplied by ten, m times. */
  function TimesTens(x: nat, m: nat): nat {
    x * Pow(10, m)
  }

  lemma TimesTensStep(x: nat, m: nat)
    ensures TimesTens(x, 0) == x && TimesTens(x, m + 1) == 10 * TimesTens(x, m)
  {
    TimesTen(x, Pow(10, m));
    assert Pow(10, 0) == 1;
  }

  lemma WidthScaled(i: Interval, delta: nat, m: int)
    requires m >= 0 && delta == i.plus - i.minus
    ensures (i.plus - i.minus) * Scale(-m) == TimesTens(delta, m)
  {
    if m == 0 { assert Pow(10, 0) == 1; }
  }

  /** One turn of the second loop. */
  lemma FractionTurn(i: Interval, digits: string, m: int, p2: nat, delta: nat)
    requires m >= 0 && AllDigits(digits) && Floor(i, Number(digits), -m, p2) && i.one > 0
    requires i.minus <= i.plus && delta == i.plus - i.minus && TimesTens(delta, m) < p2
    ensures p2 < i.one && Leading(10 * p2, i.one).0 <= 9 && NoneInside(i, -m)
    ensures var more := digits + [DigitChar(Leading(10 * p2, i.one).0)];
            AllDigits(more) && Floor(i, Number(more), -(m + 1), Leading(10 * p2, i.one).1)
  {
    hide Pow, Number, NoneInside, Floor, Scale, TimesTens, Leading;
    FloorBelowOne(i, Number(digits), m, p2);
    WidthScaled(i, delta, m);
    NoMultiple(i, Number(digits), -m, p2);
    var (d, r) := Leading(10 * p2, i.one);
    FractionStep(p2, i.one);
    FloorStep(i, Number(digits), -(m + 1), p2, d, r);
    NumberAppend(digits, DigitChar(d));
  }

  lemma FloorBelowOne(i: Interval, d: nat, m: int, rest: int)
    requires m >= 0 && Floor(i, d, -m, rest)
    ensures 0 <= rest < i.one
  {
    if m == 0 { assert Pow(10, 0) == 1; }
  }

  lemma FractionStep(p2: nat, one: nat)
    requires p2 < one
    ensures var (d, r) := Leading(10 * p2, one); d <= 9 && r < one && 10 * p2 == d * one + r
  {
    var (d, r) := Leading(10 * p2, one);
    if d >= 10 { Mono(one, 10, d); }
  }

  const TWO_60: int := 0x1000_0000_0000_0000

  /** The second loop: digits of the fraction p2, with the interval scaled along.  `cap` is a
      number of digits that suffices because by then the interval is as wide as the number one. */
  method FractionalDigits(buffer: array<char>, start: nat, ghost i: Interval, length0: nat, p: uint64, delta0: uint64,
                          dist0: uint64, one: uint64, ghost cap: nat)
    returns (length: nat, m: int, p2: uint64, delta: uint64, dist: uint64)
    requires i.one == one && 0 < one <= TWO_60 && i.minus <= i.plus && delta0 == i.plus - i.minus
    requires start < length0 < start + cap <= buffer.Length
    requires AllDigits(buffer[..][start..length0]) && Floor(i, Number(buffer[..][start..length0]), 0, p)
    requires 1 <= delta0 < p && dist0 <= delta0
    requires forall k: nat :: (length0 - start) + k >= cap ==> TimesTens(delta0, k) >= one
    modifies buffer
    ensures 1 <= m && length == length0 + m <= start + cap && buffer[start] == old(buffer[start])
    ensures OnlyChanged(old(buffer[..]), buffer[..], start, length) && AllDigits(buffer[..][start..length])
    ensures Floor(i, Number(buffer[..][start..length]), -m, p2) && p2 <= delta && NoneInside(i, -m + 1)
    ensures delta == TimesTens(delta0, m) && dist == TimesTens(dist0, m) <= delta
  {
    hide Pow, Number, NoneInside, Floor, TimesTens, Leading, AllDigits, OnlyChanged;
    length, m, p2, delta, dist := length0, 0, p, delta0, dist0;
    TimesTensStep(delta0, 0);
    TimesTensStep(dist0, 0);
    NothingChanged(buffer[..], start, length0);
    while true
      invariant 0 <= m && length == length0 + m < start + cap && buffer[start] == old(buffer[start])
      invariant OnlyChanged(old(buffer[..]), buffer[..], start, length)
      invariant AllDigits(buffer[..][start..length])
      invariant Floor(i, Number(buffer[..][start..length]), -m, p2)
      invariant 1 <= delta == TimesTens(delta0, m) < p2 && dist == TimesTens(dist0, m) <= delta
      decreases one - delta
    {
      ghost var now := buffer[..];
      FractionTurn(i, now[start..length], m, p2, delta0);
      TimesTensStep(delta0, m);
      TimesTensStep(dist0, m);
      p2 := 10 * p2;
      var (d, r) := Leading(p2, one);
      OneMore(old(buffer[..]), now, start, length, DigitChar(d));
      buffer[length] := DigitChar(d);
      assert buffer[..] == now[length := DigitChar(d)];
      length := length + 1;
      p2 := r;
      m := m + 1;
      assert Floor(i, Number(buffer[..][start..length]), -m, p2);
      delta := 10 * delta;
      dist := 10 * dist;
      if p2 <= delta {
        break;
      }
      FloorBelowOne(i, Number(buffer[..][start..length]), m, p2);
    }
  }

  // ----- rounding the generated digits ------------------------------------------------

  /** Taking one off the last digit `steps` times. */
  lemma LastDigitLowered(s: string, t: string, steps: nat)
    requires s != "" && |t| == |s| && AllDigits(s) && AllDigits(t)
    requires t[..|t| - 1] == s[..|s| - 1] && DigitOf(t[|t| - 1]) == DigitOf(s[|s| - 1]) - steps
    ensures Number(t) == Number(s) - steps
  {
  }

  /** The last digit cannot be emptied inside the interval when no multiple of the next
      larger power of ten lies there. */
  lemma LastDigitStays(i: Interval, s: string, n: int, rest: int, width: nat)
    requires s != "" && AllDigits(s) && Floor(i, Number(s), n, rest) && NoneInside(i, n + 1)
    requires i.minus <= i.plus && width == (i.plus - i.minus) * Scale(n) && rest <= width
    ensures rest + DigitOf(s[|s| - 1]) * Unit(n, i.one) > width
  {
    hide Unit, Scale, Number;
    LastDigit(s);
    DigitStays(i, Number(s[..|s| - 1]), DigitOf(s[|s| - 1]), n, rest);
  }

  /** The same with the last digit `x` of 10 d + x. */
  lemma DigitStays(i: Interval, d: nat, x: nat, n: int, rest: int)
    requires Floor(i, 10 * d + x, n, rest) && NoneInside(i, n + 1) && i.minus <= i.plus
    ensures rest + x * Unit(n, i.one) > (i.plus - i.minus) * Scale(n)
  {
    hide Unit, Scale;
    var u := Unit(n, i.one);
    Distribute(d, x, u);
    UnitStep(n, i.one);
    assert !Inside(i, d, n + 1);
    Difference(i.plus, i.minus, Scale(n));
    Mono(u, 0, x);
    if n >= 0 {
      WholeDigitStays(i.minus, i.plus, d, u, x * u, rest);
    } else {
      LowerEnd(i, d, u, Scale(n + 1), x * u + rest);
    }
  }

  lemma WholeDigitStays(minus: int, plus: int, d: nat, u: nat, digit: int, rest: int)
    requires plus == 10 * (d * u) + digit + rest && digit >= 0 && rest >= 0
    requires !(minus <= d * (10 * u) <= plus)
    ensures rest + digit > plus - minus
  {
    TimesTen(d, u);
  }

  lemma LastDigit(s: string)
    requires s != "" && AllDigits(s)
    ensures 0 <= DigitOf(s[|s| - 1]) <= 9 && Number(s) == 10 * Number(s[..|s| - 1]) + DigitOf(s[|s| - 1])
  {
    assert IsDigit(s[|s| - 1]);
  }

  lemma LowerEnd(i: Interval, d: nat, u: nat, scale: nat, rest: int)
    requires i.plus * (10 * scale) == 10 * (d * u) + rest && rest >= 0
    requires !(i.minus * scale <= d * u <= i.plus * scale)
    ensures i.minus * (10 * scale) > 10 * (d * u)
  {
    TimesTen(i.plus, scale);
    TimesTen(i.minus, scale);
  }

  /** What rounding achieves: the multiple of 10^n in the interval that is nearest to w. */
  lemma RoundedIsNearest(i: Interval, d: nat, n: int, rest: nat, steps: nat, width: nat, dist: nat)
    requires Floor(i, d, n, rest) && i.minus <= i.w <= i.plus
    requires width == (i.plus - i.minus) * Scale(n) && dist == (i.plus - i.w) * Scale(n)
    requires FirstNearest(rest, Unit(n, i.one), width, dist, steps)
    ensures Nearest(i, d - steps, n)
  {
    hide Unit, Scale, Gap;
    var u, sc := Unit(n, i.one), Scale(n);
    Difference(i.plus, i.minus, sc);
    Difference(i.plus, i.w, sc);
    Difference(d, steps, u);
    Mono(sc, i.minus, i.plus);
    Mono(u, 0, steps);
    forall o: int | Inside(i, o, n)
      ensures Off(i, d - steps, n) < Off(i, o, n) || (Off(i, d - steps, n) == Off(i, o, n) && o <= d - steps)
    {
      NotAbove(i, d, n, rest, o);
      var j := d - o;
      Difference(d, j, u);
      assert rest + j * u <= width;
      Mirror(i.plus * sc, rest + j * u, i.w * sc);
      Mirror(i.plus * sc, rest + steps * u, i.w * sc);
    }
  }

  lemma NotAbove(i: Interval, d: nat, n: int, rest: int, o: int)
    requires Floor(i, d, n, rest) && Inside(i, o, n)
    ensures o <= d
  {
    if o > d { StrictMono(Unit(n, i.one), d, o); }
  }

  /** Distances measured from the upper end are distances. */
  lemma Mirror(top: int, x: int, w: int)
    ensures Gap(top - x, w) == Gap(x, top - w)
  {
  }

  /** Without a multiple of 10^n in the interval there is none of any larger power of ten. */
  lemma {:induction false} LargerPowersMiss(i: Interval, n: int, larger: int)
    requires NoneInside(i, n) && n <= larger
    ensures NoneInside(i, larger)
    decreases larger - n
  {
    if n < larger {
      ghost var next := n + 1;
      forall d: int ensures !Inside(i, d, next) {
        if Inside(i, d, next) { InsideFiner(i, d, n); }
      }
      LargerPowersMiss(i, n + 1, larger);
    }
  }

  /** The shortest digits do not end in zero. */
  lemma ShortestIsNeeded(i: Interval, s: string, n: int)
    requires s != "" && AllDigits(s) && Nearest(i, Number(s), n) && Shortest(i, n)
    ensures s[|s| - 1] != '0'
  {
    hide Number, Inside;
    LastDigit(s);
    var d := Number(s[..|s| - 1]);
    ShortestMisses(i, d, n);
    if s[|s| - 1] == '0' { InsideCoarser(i, d, n); }
  }

  lemma ShortestMisses(i: Interval, d: int, n: int)
    requires Shortest(i, n)
    ensures !Inside(i, d, n + 1)
  {
    ghost var next := n + 1;
    assert NoneInside(i, next);
  }

  lemma InsideCoarser(i: Interval, d: int, n: int)
    requires Inside(i, 10 * d, n)
    ensures Inside(i, d, n + 1)
  {
    hide Unit, Scale;
    UnitStep(n, i.one);
    var u, s := Unit(n, i.one), Scale(n + 1);
    assert (10 * d) * u == 10 * (d * u);
    if n < 0 {
      TimesTen(i.minus, s);
      TimesTen(i.plus, s);
    } else {
      assert d * (10 * u) == 10 * (d * u);
    }
  }

  lemma InsideFiner(i: Interval, d: int, n: int)
    requires Inside(i, d, n + 1)
    ensures Inside(i, 10 * d, n)
  {
    hide Unit, Scale;
    UnitStep(n, i.one);
    var u, s := Unit(n, i.one), Scale(n + 1);
    assert (10 * d) * u == 10 * (d * u);
    if n >= 0 {
      assert d * (10 * u) == 10 * (d * u);
    } else {
      TimesTen(i.minus, s);
      TimesTen(i.plus, s);
    }
  }

  // ----- the whole algorithm ------------------------------------------------------------

  /** The buffer space that suffices: 17 digits when the interval is at least 10^-16 of its
      upper end, otherwise 29. */
  function MaxLength(minus: nat, plus: nat): nat {
    if plus <= 10000000000000000 * (plus - minus) then 17 else 29
  }

  lemma CapSuffices(i: Interval, k: nat, firstPow10: nat, m: nat, delta: nat)
    requires 1 <= k <= 10 && firstPow10 == Pow(10, k - 1) && 0 < i.one <= TWO_60
    requires i.minus < i.plus && delta == i.plus - i.minus && firstPow10 * i.one <= i.plus
    requires k + m >= MaxLength(i.minus, i.plus)
    ensures TimesTens(delta, m) >= i.one
  {
    SmallTens();
    if MaxLength(i.minus, i.plus) == 17 {
      CapByWidth(k, m, delta, i.one);
    } else {
      if m > 19 { PowGrows(10, 19, m); }
      Mono(Pow(10, m), 1, delta);
    }
  }

  lemma CapByWidth(k: nat, m: nat, delta: nat, one: nat)
    requires 1 <= k <= 10 && k + m >= 17 && Pow(10, k - 1) * one <= 10000000000000000 * delta
    ensures TimesTens(delta, m) >= one
  {
    SmallTens();
    var p, q := Pow(10, k - 1), Pow(10, 17 - k);
    assert p * q == Pow(10, 16) by { PowAdd(10, k - 1, 17 - k); }
    assert p * one <= p * (q * delta) by { assert (p * q) * delta == p * (q * delta); }
    CancelFactor(p, one, q * delta);
    if m > 17 - k { PowGrows(10, 17 - k, m); }
    Mono(delta, q, Pow(10, m));
  }

  lemma CancelFactor(p: nat, x: int, y: int)
    requires p > 0 && p * x <= p * y
    ensures x <= y
  {
    if x > y { StrictMono(p, y, x); }
  }

  lemma OneInRange(e: int)
    requires 32 <= e <= 60
    ensures TWO_32 <= Pow(2, e) <= TWO_60
  {
    hide Pow;
    PowersOfTwo();
    if e > 32 { PowGrows(2, 32, e); }
    if e < 60 { PowGrows(2, e, 60); }
  }

  /** M+ split into its integral and its fractional part. */
  lemma SplitUpper(f: nat, one: nat)
    requires TWO_32 <= one <= f < TWO_64
    ensures var (p, p2) := Leading(f, one);
            0 < p < TWO_32 && p2 < one && Joined(p, p2, one) == f
  {
    var q := f / one;
    assert f == one * q + f % one;
    if q >= TWO_32 { Mono(one, TWO_32, q); }
    assert q * one == one * q;
  }

  lemma EnoughSpace(i: Interval, p: nat, p2: nat, k: nat, firstPow10: nat, delta: nat)
    requires delta == i.plus - i.minus && Joined(p, p2, i.one) == i.plus && 0 < i.one <= TWO_60 && i.minus < i.plus
    requires 1 <= k <= 10 && firstPow10 == Pow(10, k - 1) <= p
    ensures forall m: nat :: k + m >= MaxLength(i.minus, i.plus) ==> TimesTens(delta, m) >= i.one
  {
    Mono(i.one, firstPow10, p);
    forall m: nat | k + m >= MaxLength(i.minus, i.plus) ensures TimesTens(delta, m) >= i.one {
      CapSuffices(i, k, firstPow10, m, delta);
    }
  }

  /** The rounding precondition behind the first loop. */
  lemma RoundIntegral(i: Interval, n: nat, pow10: nat, digits: string, rest: int)
    requires digits != "" && AllDigits(digits) && Floor(i, Number(digits), n, rest) && NoneInside(i, n + 1)
    requires pow10 == Pow(10, n) && i.minus <= i.plus && rest <= i.plus - i.minus
    ensures pow10 * i.one == Unit(n, i.one) && 0 < pow10 * i.one <= i.plus
    ensures rest + DigitOf(digits[|digits| - 1]) * (pow10 * i.one) > i.plus - i.minus
    ensures i.plus - i.minus == (i.plus - i.minus) * Scale(n) && i.plus - i.w == (i.plus - i.w) * Scale(n)
  {
    hide Number;
    var u := Unit(n, i.one);
    LastDigitStays(i, digits, n, rest, i.plus - i.minus);
    LastDigit(digits);
    assert DigitOf(digits[|digits| - 1]) * u > 0;
    Positive(DigitOf(digits[|digits| - 1]), u);
    Mono(u, 1, Number(digits));
  }

  lemma Positive(x: int, u: int)
    requires 0 <= x && 0 <= u && x * u > 0
    ensures x >= 1 && u >= 1
  {
  }

  /** The rounding precondition behind the second loop. */
  lemma RoundFraction(i: Interval, m: int, digits: string, rest: int, delta: nat, dist: nat)
    requires m >= 1 && digits != "" && AllDigits(digits) && Floor(i, Number(digits), -m, rest) && NoneInside(i, -m + 1)
    requires i.minus <= i.w <= i.plus && rest <= delta
    requires delta == TimesTens(i.plus - i.minus, m) && dist == TimesTens(i.plus - i.w, m)
    ensures i.one == Unit(-m, i.one)
    ensures rest + DigitOf(digits[|digits| - 1]) * i.one > delta
    ensures delta == (i.plus - i.minus) * Scale(-m) && dist == (i.plus - i.w) * Scale(-m)
  {
    hide Number, Pow;
    LastDigitStays(i, digits, -m, rest, delta);
  }

  /** The rounded digits denote the nearest number. */
  lemma Finish(i: Interval, before: string, after: string, n: int, rest: nat, steps: nat, width: nat, dist: nat)
    requires before != "" && |after| == |before| && AllDigits(before)
    requires forall k | 0 <= k < |before| - 1 :: after[k] == before[k]
    requires IsDigit(after[|after| - 1]) && DigitOf(after[|after| - 1]) == DigitOf(before[|before| - 1]) - steps
    requires Floor(i, Number(before), n, rest) && i.minus <= i.w <= i.plus
    requires width == (i.plus - i.minus) * Scale(n) && dist == (i.plus - i.w) * Scale(n)
    requires FirstNearest(rest, Unit(n, i.one), width, dist, steps)
    ensures AllDigits(after) && Nearest(i, Number(after), n)
  {
    hide Unit, Scale, Nearest, FirstNearest;
    assert AllDigits(after) by {
      forall k | 0 <= k < |after| ensures IsDigit(after[k]) {
        if k < |after| - 1 { assert IsDigit(before[k]); }
      }
    }
    assert after[..|after| - 1] == before[..|before| - 1];
    LastDigitLowered(before, after, steps);
    RoundedIsNearest(i, Number(before), n, rest, steps, width, dist);
  }

  /** `grisu2_digit_gen`: generate the digits of M+ until the rest fits into [M-, M+], then
      round toward w.  The digits are appended behind `length0` characters, which stay.  The
      result is as short as possible, and among the numbers of that length in the interval none
      is nearer to w.  No leading zero. */
  method Generate(buffer: array<char>, length0: nat, decimalExponent0: int, mMinus: Diy, w: Diy, mPlus: Diy)
    returns (length: nat, decimalExponent: int)
    requires mMinus.e == w.e == mPlus.e && -60 <= mPlus.e <= -32
    requires 0 < mMinus.f <= w.f <= mPlus.f && mMinus.f < mPlus.f
    requires mPlus.f >= Pow(2, -mPlus.e)
    requires buffer.Length >= length0 + MaxLength(mMinus.f, mPlus.f)
    modifies buffer
    ensures length0 < length <= length0 + MaxLength(mMinus.f, mPlus.f)
    ensures OnlyChanged(old(buffer[..]), buffer[..], length0, length)
    ensures buffer[length0] != '0' && AllDigits(buffer[..][length0..length])
    ensures var i := Interval(mMinus.f, w.f, mPlus.f, Pow(2, -mPlus.e));
            var n := decimalExponent - decimalExponent0;
            Nearest(i, Number(buffer[..][length0..length]), n) && Shortest(i, n)
  {
    hide Pow, Number, NoneInside, Floor, TimesTens, Leading, Joined, Unit, Nearest, MaxLength, Shortest, AllDigits,
         OnlyChanged;
    var delta: uint64, dist: uint64 := Sub(mPlus, mMinus).f, Sub(mPlus, w).f;
    OneInRange(-mPlus.e);
    var one: uint64 := Pow(2, -mPlus.e);
    ghost var i := Interval(mMinus.f, w.f, mPlus.f, one);
    SplitUpper(mPlus.f, one);
    var (p, p2) := Leading(mPlus.f, one);
    var (k, firstPow10) := FindLargestPow10(p);
    ghost var cap := MaxLength(mMinus.f, mPlus.f);
    EnoughSpace(i, p, p2, k, firstPow10, delta);
    MaxLengthIs(mMinus.f, mPlus.f);
    ghost var was := buffer[..];
    var n, rest, pow10, done;
    length, n, rest, pow10, done := IntegralDigits(buffer, length0, i, p, p2, delta, one, k, firstPow10);
    ghost var between := buffer[..];
    ghost var mid := length;
    if done {
      decimalExponent := decimalExponent0 + n;
      RoundIntegralDigits(buffer, length0, i, length, n, rest, delta, dist, pow10, one);
      ThenChanged(was, between, buffer[..], length0, length, length);
      OneDigitPositive(i, buffer[..][length0..length], n);
      NoneLarger(i, n);
    } else {
      var m;
      length, m, p2, delta, dist := FractionalDigits(buffer, length0, i, length, p2, delta, dist, one, cap);
      ghost var generated := buffer[..];
      decimalExponent := decimalExponent0 - m;
      RoundFraction(i, m, buffer[..][length0..length], p2, delta, dist);
      RoundDigits(buffer, length0, i, length, -m, p2, delta, dist, one);
      ThenChanged(was, between, generated, length0, mid, length);
      ThenChanged(was, generated, buffer[..], length0, length, length);
      OneDigitPositive(i, buffer[..][length0..length], -m);
      NoneLarger(i, -m);
    }
  }

  /** No multiple of any larger power of ten lies in the interval. */
  ghost predicate Shortest(i: Interval, n: int) {
    forall larger: int :: n < larger ==> NoneInside(i, larger)
  }

  lemma NoneLarger(i: Interval, n: int)
    requires NoneInside(i, n + 1)
    ensures Shortest(i, n)
  {
    hide NoneInside;
    forall larger: int | n < larger ensures NoneInside(i, larger) {
      LargerPowersMiss(i, n + 1, larger);
    }
  }

  /** A single digit inside the interval is not zero. */
  lemma OneDigitPositive(i: Interval, s: string, n: int)
    requires AllDigits(s) && i.minus > 0 && Nearest(i, Number(s), n)
    ensures |s| == 1 ==> s[0] != '0'
  {
    hide Unit;
    if |s| == 1 {
      assert s[..0] == "";
      InsidePositive(i.minus, Scale(n), Unit(n, i.one));
    }
  }

  lemma InsidePositive(minus: nat, scale: nat, u: nat)
    requires minus > 0 && scale > 0
    ensures minus * scale > 0 * u
  {
  }

  /** The first call of `grisu2_round`. */
  method RoundIntegralDigits(buffer: array<char>, start: nat, ghost i: Interval, length: nat, ghost n: int,
                             rest: uint64, delta: uint64, dist: uint64, pow10: uint32, one: uint64)
    requires start < length <= buffer.Length && AllDigits(buffer[..][start..length])
    requires Floor(i, Number(buffer[..][start..length]), n, rest) && NoneInside(i, n + 1) && n >= 0
    requires i.minus <= i.w <= i.plus < TWO_64 && rest <= delta && pow10 == Pow(10, n) && one == i.one
    requires delta == i.plus - i.minus && dist == i.plus - i.w
    modifies buffer
    ensures OnlyChanged(old(buffer[..]), buffer[..], start, length) && AllDigits(buffer[..][start..length])
    ensures Nearest(i, Number(buffer[..][start..length]), n)
    ensures length > start + 1 ==> buffer[start] == old(buffer[start])
  {
    hide Pow, Number, NoneInside, Floor, Unit, Nearest, Scale, AllDigits, OnlyChanged;
    RoundIntegral(i, n, pow10, buffer[..][start..length], rest);
    RoundDigits(buffer, start, i, length, n, rest, delta, dist, pow10 * one);
  }

  lemma MaxLengthIs(minus: nat, plus: nat)
    ensures 17 <= MaxLength(minus, plus) <= 29
  {
  }

  /** The call of `grisu2_round` behind either loop. */
  method RoundDigits(buffer: array<char>, start: nat, ghost i: Interval, length: nat, ghost n: int, rest: uint64,
                     delta: uint64, dist: uint64, tenK: uint64)
    requires start < length <= buffer.Length && AllDigits(buffer[..][start..length])
    requires Floor(i, Number(buffer[..][start..length]), n, rest) && i.minus <= i.w <= i.plus && rest <= delta
    requires delta == (i.plus - i.minus) * Scale(n) && dist == (i.plus - i.w) * Scale(n)
    requires tenK == Unit(n, i.one) > 0 && rest + DigitOf(buffer[..][start..length][length - start - 1]) * tenK > delta
    modifies buffer
    ensures OnlyChanged(old(buffer[..]), buffer[..], start, length) && AllDigits(buffer[..][start..length])
    ensures Nearest(i, Number(buffer[..][start..length]), n)
    ensures length > start + 1 ==> buffer[start] == old(buffer[start])
  {
    hide Number, Floor, Nearest, Unit, Scale, Gap, FirstNearest;
    ghost var digits := buffer[..][start..length];
    assert IsDigit(digits[length - start - 1]) && digits[length - start - 1] == buffer[length - 1];
    DistBelowDelta(i, n, delta, dist);
    ghost var steps := Round(buffer, length, dist, delta, rest, tenK);
    ghost var after := buffer[..][start..length];
    assert forall k | 0 <= k < |digits| - 1 :: after[k] == digits[k];
    Finish(i, digits, after, n, rest, steps, delta, dist);
  }

  lemma DistBelowDelta(i: Interval, n: int, delta: nat, dist: nat)
    requires i.minus <= i.w && delta == (i.plus - i.minus) * Scale(n) && dist == (i.plus - i.w) * Scale(n)
    ensures dist <= delta
  {
    Mono(Scale(n), i.plus - i.w, i.plus - i.minus);
  }
}
