/**
 The JSON value model: the ten types of `value_t`, exceptions, and `operator==`.
 */
module JsonValue {
  import opened Words

  /** The exception classes of the library, with their numeric identifiers.
      `AssertionFailure` stands for a violated JSON_ASSERT. */
  datatype Exception =
    | ParseError(id: nat)
    | TypeError(id: nat)
    | OutOfRange(id: nat)
    | OtherError(id: nat)
    | AssertionFailure

  datatype Result<+T> = Ok(value: T) | Throws(error: Exception) {
    predicate IsFailure() { Throws? }
    function PropagateFailure<U>(): Result<U>
      requires Throws?
    {
      Throws(error)
    }
    function Extract(): T
      requires Ok?
    {
      value
    }
  }

  /** A double by value: the sign of zero is not kept, since no comparison sees it. */
  datatype Double = Finite(value: real) | Infinity(negative: bool) | NaN

  /** The subtype that a binary value may carry. */
  datatype Subtype = NoSubtype | Tagged(tag: nat)

  datatype Json =
    | Null
    | Boolean(b: bool)
    | Integer(i: int64)
    | Unsigned(u: uint64)
    | Float(f: Double)
    | String(s: string)
    | Binary(bytes: seq<int>, subtype: Subtype)
    | Array(items: seq<Json>)
    | Object(members: map<string, Json>)
    | Discarded
  {
    predicate IsNumber() { Integer? || Unsigned? || Float? }

    /** `is_structured`. */
    predicate IsStructured() { Array? || Object? }

    /** `is_primitive`: neither structured nor discarded. */
    predicate IsPrimitive() { !IsStructured() && !Discarded? }
  }

  /** The two values hold the same `value_t`. */
  predicate SameType(a: Json, b: Json) {
    match a
    case Null => b.Null?
    case Boolean(_) => b.Boolean?
    case Integer(_) => b.Integer?
    case Unsigned(_) => b.Unsigned?
    case Float(_) => b.Float?
    case String(_) => b.String?
    case Binary(_, _) => b.Binary?
    case Array(_) => b.Array?
    case Object(_) => b.Object?
    case Discarded => b.Discarded?
  }

  /** The non-const `operator[](idx)` fills an array with nulls up to the index. */
  function Filled(a: seq<Json>, idx: nat): (r: seq<Json>)
    ensures |r| == (if idx < |a| then |a| else idx + 1) && a <= r
    ensures forall i | |a| <= i < |r| :: r[i] == Null
  {
    if idx < |a| then a else a + seq(idx + 1 - |a|, _ => Null)
  }

  /** `static_cast<number_integer_t>` of an unsigned number. */
  function ToInteger(u: uint64): int64 {
    if u < TWO_63 then u else u - TWO_64
  }

  /** The multiple of `q` nearest to `n`, ties to an even multiple. */
  function RoundToMultiple(n: nat, q: nat): nat
    requires q > 0
  {
    var r := n % q;
    if 2 * r < q || (2 * r == q && (n / q) % 2 == 0) then n - r else n - r + q
  }

  /** The unit in the last of 53 binary places of an integer of this magnitude. */
  function LastPlace(n: nat): (q: nat)
    ensures q > 0
  {
    if n < 0x20_0000_0000_0000 then 1 else 2 * LastPlace(n / 2)
  }

  /** A 64-bit integer rounded to 53 binary places: to nearest, ties to even. */
  function Rounded(n: int): int {
    var m: nat := if n < 0 then -n else n;
    var r: int := RoundToMultiple(m, LastPlace(m));
    if n < 0 then -r else r
  }

  /** `static_cast<double>` of a 64-bit integer. */
  function ToDouble(n: int): Double {
    Finite(Rounded(n) as real)
  }

  /** IEEE equality. */
  predicate DoubleEq(x: Double, y: Double) {
    !x.NaN? && x == y
  }

  /** `operator==`: numbers of different types are compared after a cast; NaN and
      discarded values equal nothing, not even themselves. */
  predicate LibEq(a: Json, b: Json)
    decreases a
  {
    match (a, b)
    case (Array(x), Array(y)) => |x| == |y| && forall i | 0 <= i < |x| :: LibEq(x[i], y[i])
    case (Object(m), Object(n)) => m.Keys == n.Keys && forall k | k in m.Keys :: LibEq(m[k], n[k])
    case (Float(x), Float(y)) => DoubleEq(x, y)
    case (Integer(i), Float(y)) => DoubleEq(ToDouble(i), y)
    case (Float(x), Integer(i)) => DoubleEq(x, ToDouble(i))
    case (Unsigned(u), Float(y)) => DoubleEq(ToDouble(u), y)
    case (Float(x), Unsigned(u)) => DoubleEq(x, ToDouble(u))
    case (Unsigned(u), Integer(i)) => ToInteger(u) == i
    case (Integer(i), Unsigned(u)) => i == ToInteger(u)
    case (Discarded, Discarded) => false
    case _ => a == b
  }

  /** No NaN and no discarded value anywhere inside. */
  predicate Clean(j: Json) {
    match j
    case Array(x) => forall i | 0 <= i < |x| :: Clean(x[i])
    case Object(m) => forall k | k in m.Keys :: Clean(m[k])
    case Float(f) => !f.NaN?
    case Discarded => false
    case _ => true
  }

  /** Every array is shorter than the largest `size_type`, as every vector is. */
  predicate Sized(j: Json) {
    match j
    case Array(x) => |x| < TWO_64 - 1 && forall i | 0 <= i < |x| :: Sized(x[i])
    case Object(m) => forall k | k in m.Keys :: Sized(m[k])
    case _ => true
  }

  /** A value equals itself exactly when it holds no NaN and no discarded value. */
  lemma {:induction false} EqualToItself(j: Json)
    ensures LibEq(j, j) <==> Clean(j)
  {
    match j
    case Array(x) =>
      forall i | 0 <= i < |x| ensures LibEq(x[i], x[i]) <==> Clean(x[i]) { EqualToItself(x[i]); }
    case Object(m) =>
      forall k | k in m.Keys ensures LibEq(m[k], m[k]) <==> Clean(m[k]) { EqualToItself(m[k]); }
    case _ =>
  }

  /** Only clean values are equal to anything. */
  lemma {:induction false} EqualImpliesClean(a: Json, b: Json)
    requires LibEq(a, b)
    ensures Clean(a) && Clean(b)
    decreases a
  {
    match (a, b)
    case (Array(x), Array(y)) =>
      forall i | 0 <= i < |x| ensures Clean(x[i]) && Clean(y[i]) { EqualImpliesClean(x[i], y[i]); }
    case (Object(m), Object(n)) =>
      forall k | k in m.Keys ensures Clean(m[k]) && Clean(n[k]) { EqualImpliesClean(m[k], n[k]); }
    case _ =>
  }
}
