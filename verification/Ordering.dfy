/**
 The ordering of JSON values: `operator<`, its table of types, and the lexicographic
 comparison of arrays and objects.
 */
module Ordering {
  import opened JsonValue
  import opened TextOrder
  import opened Words
  import opened Powers

  /** The rank of a type: null < boolean < number < object < array < string < binary.
      Discarded values have no rank. */
  function TypeRank(j: Json): int {
    match j
    case Null => 0
    case Object(_) => 3
    case Array(_) => 4
    case String(_) => 5
    case Boolean(_) => 1
    case Integer(_) => 2
    case Unsigned(_) => 2
    case Float(_) => 2
    case Binary(_, _) => 6
    case Discarded => -1
  }

  /** `operator<` on types. */
  predicate TypeLess(a: Json, b: Json) {
    !a.Discarded? && !b.Discarded? && TypeRank(a) < TypeRank(b)
  }

  predicate DoubleLess(x: Double, y: Double) {
    match (x, y)
    case (Finite(r), Finite(s)) => r < s
    case (Finite(_), Infinity(negative)) => !negative
    case (Infinity(negative), Finite(_)) => negative
    case (Infinity(m), Infinity(n)) => m && !n
    case _ => false
  }

  predicate BytesLess(x: seq<int>, y: seq<int>) {
    if y == [] then false
    else if x == [] then true
    else if x[0] < y[0] then true
    else if y[0] < x[0] then false
    else BytesLess(x[1..], y[1..])
  }

  /** `a < b`, or `b < a` when `flip` is set; the flip keeps the recursion on the first value. */
  predicate Before(a: Json, b: Json, flip: bool)
    decreases a, 1, 0
  {
    match (a, b)
    case (Array(_), Array(_)) => ItemsBefore(a, b, 0, flip)
    case (Object(m), Object(n)) => MembersBefore(a, b, SortedKeys(m.Keys), SortedKeys(n.Keys), 0, flip)
    case _ => if flip then ScalarLess(b, a) else ScalarLess(a, b)
  }

  /** `operator<` where no recursion is needed. */
  predicate ScalarLess(a: Json, b: Json) {
    match (a, b)
    case (Null, Null) => false
    case (String(s), String(t)) => Less(s, t)
    case (Boolean(x), Boolean(y)) => !x && y
    case (Integer(i), Integer(k)) => i < k
    case (Unsigned(u), Unsigned(v)) => u < v
    case (Float(x), Float(y)) => DoubleLess(x, y)
    case (Binary(x, _), Binary(y, _)) => BytesLess(x, y)
    case (Discarded, Discarded) => false
    case (Integer(i), Float(y)) => DoubleLess(ToDouble(i), y)
    case (Float(x), Integer(i)) => DoubleLess(x, ToDouble(i))
    case (Unsigned(u), Float(y)) => DoubleLess(ToDouble(u), y)
    case (Float(x), Unsigned(u)) => DoubleLess(x, ToDouble(u))
    case (Unsigned(u), Integer(i)) => ToInteger(u) < i
    case (Integer(i), Unsigned(u)) => i < ToInteger(u)
    case _ => TypeLess(a, b)
  }

  /** `lexicographical_compare` of two arrays from index `i` on. */
  predicate ItemsBefore(a: Json, b: Json, i: nat, flip: bool)
    requires a.Array? && b.Array? && i <= |a.items| && i <= |b.items|
    decreases a, 0, |a.items| - i
  {
    var x, y := a.items, b.items;
    if i == (if flip then |x| else |y|) then false
    else if i == (if flip then |y| else |x|) then true
    else if Before(x[i], y[i], flip) then true
    else if Before(x[i], y[i], !flip) then false
    else ItemsBefore(a, b, i + 1, flip)
  }

  /** `operator<` on pairs of a key and a value. */
  predicate PairBefore(a: Json, b: Json, k: string, l: string, flip: bool)
    requires a.Object? && b.Object? && k in a.members && l in b.members
    decreases a, 0, 0
  {
    if (if flip then Less(l, k) else Less(k, l)) then true
    else if (if flip then Less(k, l) else Less(l, k)) then false
    else Before(a.members[k], b.members[l], flip)
  }

  /** `lexicographical_compare` of two maps from position `i` of their key orders on. */
  predicate MembersBefore(a: Json, b: Json, ks: seq<string>, ls: seq<string>, i: nat, flip: bool)
    requires a.Object? && b.Object? && i <= |ks| && i <= |ls|
    requires (forall k | k in ks :: k in a.members) && (forall l | l in ls :: l in b.members)
    decreases a, 0, |ks| - i + 1
  {
    if i == (if flip then |ks| else |ls|) then false
    else if i == (if flip then |ls| else |ks|) then true
    else if PairBefore(a, b, ks[i], ls[i], flip) then true
    else if PairBefore(a, b, ks[i], ls[i], !flip) then false
    else MembersBefore(a, b, ks, ls, i + 1, flip)
  }

  /** `operator<`. */
  predicate LibLess(a: Json, b: Json) {
    Before(a, b, false)
  }

  /** What is ordered together: whether floats take part, and the one subtype of the binary
      values. */
  datatype Domain = Domain(floats: bool, subtype: Subtype)

  /** The integer is a double. */
  predicate Exact(n: int) {
    Rounded(n) == n
  }

  /** No NaN and no discarded value inside, every unsigned number below 2^63, and beside floats
      only integers that are doubles. */
  predicate Orderable(j: Json, d: Domain) {
    match j
    case Array(x) => forall i | 0 <= i < |x| :: Orderable(x[i], d)
    case Object(m) => forall k | k in m.Keys :: Orderable(m[k], d)
    case Integer(i) => d.floats ==> Exact(i)
    case Unsigned(u) => u < TWO_63 && (d.floats ==> Exact(u))
    case Float(f) => d.floats && !f.NaN?
    case Binary(_, t) => t == d.subtype
    case Discarded => false
    case _ => true
  }

  // ----- one representative for equal values ----------------------------------

  /** Integers rewritten as floats of unlimited precision. */
  function Canonical(j: Json): (c: Json)
    ensures TypeRank(c) == TypeRank(j)
  {
    match j
    case Array(x) => Array(seq(|x|, i requires 0 <= i < |x| => Canonical(x[i])))
    case Object(m) => Object(map k | k in m :: Canonical(m[k]))
    case Integer(i) => Float(Finite(i as real))
    case Unsigned(u) => Float(Finite(ToInteger(u) as real))
    case _ => j
  }

  predicate IsCanonical(j: Json, d: Domain) {
    match j
    case Array(x) => forall i | 0 <= i < |x| :: IsCanonical(x[i], d)
    case Object(m) => forall k | k in m.Keys :: IsCanonical(m[k], d)
    case Integer(_) => false
    case Unsigned(_) => false
    case Float(f) => !f.NaN?
    case Binary(_, t) => t == d.subtype
    case Discarded => false
    case _ => true
  }

  lemma {:induction false} CanonicalIsCanonical(j: Json, d: Domain)
    requires Orderable(j, d)
    ensures IsCanonical(Canonical(j), d)
  {
    match j
    case Array(x) => forall i | 0 <= i < |x| ensures IsCanonical(Canonical(x[i]), d) { CanonicalIsCanonical(x[i], d); }
    case Object(m) => forall k | k in m.Keys ensures IsCanonical(Canonical(m[k]), d) { CanonicalIsCanonical(m[k], d); }
    case _ =>
  }

  /** Equality for `operator==` is equality of the representatives. */
  lemma {:induction false} EqualIsCanonical(a: Json, b: Json, d: Domain)
    requires Orderable(a, d) && Orderable(b, d)
    ensures LibEq(a, b) <==> Canonical(a) == Canonical(b)
    decreases a, 1
  {
    hide Rounded;
    if a.Array? && b.Array? {
      EqualArrays(a, b, d);
    } else if a.Object? && b.Object? {
      EqualObjects(a, b, d);
    }
  }

  lemma {:induction false} EqualArrays(a: Json, b: Json, d: Domain)
    requires Orderable(a, d) && Orderable(b, d) && a.Array? && b.Array?
    ensures LibEq(a, b) <==> Canonical(a) == Canonical(b)
    decreases a, 0
  {
    hide Rounded;
    var x, y, c, e := a.items, b.items, Canonical(a).items, Canonical(b).items;
    if |x| == |y| {
      forall i | 0 <= i < |x| ensures LibEq(x[i], y[i]) <==> c[i] == e[i] { EqualIsCanonical(x[i], y[i], d); }
    }
  }

  lemma {:induction false} EqualObjects(a: Json, b: Json, d: Domain)
    requires Orderable(a, d) && Orderable(b, d) && a.Object? && b.Object?
    ensures LibEq(a, b) <==> Canonical(a) == Canonical(b)
    decreases a, 0
  {
    hide Rounded;
    var m, n, c, e := a.members, b.members, Canonical(a).members, Canonical(b).members;
    assert c.Keys == m.Keys && e.Keys == n.Keys;
    if m.Keys == n.Keys {
      forall k | k in m.Keys ensures LibEq(m[k], n[k]) <==> c[k] == e[k] { EqualIsCanonical(m[k], n[k], d); }
    }
  }

  /** The order does not distinguish a value from its representative. */
  lemma {:induction false} BeforeIsCanonical(a: Json, b: Json, flip: bool, d: Domain)
    requires Orderable(a, d) && Orderable(b, d)
    ensures Before(a, b, flip) == Before(Canonical(a), Canonical(b), flip)
    decreases a, 1, 0
  {
    hide ScalarLess, Orderable, Before, ItemsBefore, MembersBefore, SortedKeys;
    BeforeBy(a, b, flip);
    BeforeBy(Canonical(a), Canonical(b), flip);
    if a.Array? && b.Array? {
      ItemsCanonical(a, b, 0, flip, d);
    } else if a.Object? && b.Object? {
      var c, e := Canonical(a), Canonical(b);
      assert c.members.Keys == a.members.Keys && e.members.Keys == b.members.Keys;
      MembersCanonical(a, b, SortedKeys(a.members.Keys), SortedKeys(b.members.Keys), 0, flip, d);
    } else {
      ScalarCanonical(a, b, d);
      ScalarCanonical(b, a, d);
    }
  }

  /** The three cases of the comparison. */
  lemma BeforeBy(a: Json, b: Json, flip: bool)
    ensures a.Array? && b.Array? ==> Before(a, b, flip) == ItemsBefore(a, b, 0, flip)
    ensures a.Object? && b.Object? ==>
              Before(a, b, flip) ==
              MembersBefore(a, b, SortedKeys(a.members.Keys), SortedKeys(b.members.Keys), 0, flip)
    ensures !(a.Array? && b.Array?) && !(a.Object? && b.Object?) ==>
              Before(a, b, flip) == if flip then ScalarLess(b, a) else ScalarLess(a, b)
  {
    hide ScalarLess, ItemsBefore, MembersBefore, SortedKeys;
  }

  lemma ScalarCanonical(a: Json, b: Json, d: Domain)
    requires Orderable(a, d) && Orderable(b, d)
    ensures ScalarLess(a, b) == ScalarLess(Canonical(a), Canonical(b))
  {
  }

  lemma {:induction false} ItemsCanonical(a: Json, b: Json, i: nat, flip: bool, d: Domain)
    requires a.Array? && b.Array? && i <= |a.items| && i <= |b.items| && Orderable(a, d) && Orderable(b, d)
    ensures ItemsBefore(a, b, i, flip) == ItemsBefore(Canonical(a), Canonical(b), i, flip)
    decreases a, 0, |a.items| - i
  {
    if i < |a.items| && i < |b.items| {
      BeforeIsCanonical(a.items[i], b.items[i], flip, d);
      BeforeIsCanonical(a.items[i], b.items[i], !flip, d);
      ItemsCanonical(a, b, i + 1, flip, d);
    }
  }

  lemma {:induction false} MembersCanonical(a: Json, b: Json, ks: seq<string>, ls: seq<string>, i: nat, flip: bool,
                                            d: Domain)
    requires a.Object? && b.Object? && i <= |ks| && i <= |ls| && Orderable(a, d) && Orderable(b, d)
    requires (forall k | k in ks :: k in a.members) && (forall l | l in ls :: l in b.members)
    ensures MembersBefore(a, b, ks, ls, i, flip) == MembersBefore(Canonical(a), Canonical(b), ks, ls, i, flip)
    decreases a, 0, |ks| - i
  {
    if i < |ks| && i < |ls| {
      var k, l := ks[i], ls[i];
      assert k in ks && l in ls;
      BeforeIsCanonical(a.members[k], b.members[l], flip, d);
      BeforeIsCanonical(a.members[k], b.members[l], !flip, d);
      MembersCanonical(a, b, ks, ls, i + 1, flip, d);
    }
  }

  // ----- the flip --------------------------------------------------------------

  lemma {:induction false} FlipIsSwap(a: Json, b: Json, flip: bool)
    ensures Before(a, b, flip) == Before(b, a, !flip)
    decreases a, 1, 0
  {
    hide ScalarLess, Before, ItemsBefore, MembersBefore, SortedKeys;
    BeforeBy(a, b, flip);
    BeforeBy(b, a, !flip);
    if a.Array? && b.Array? {
      FlipItems(a, b, 0, flip);
    } else if a.Object? && b.Object? {
      FlipMembers(a, b, SortedKeys(a.members.Keys), SortedKeys(b.members.Keys), 0, flip);
    }
  }

  lemma {:induction false} FlipItems(a: Json, b: Json, i: nat, flip: bool)
    requires a.Array? && b.Array? && i <= |a.items| && i <= |b.items|
    ensures ItemsBefore(a, b, i, flip) == ItemsBefore(b, a, i, !flip)
    decreases a, 0, |a.items| - i
  {
    if i < |a.items| && i < |b.items| {
      FlipIsSwap(a.items[i], b.items[i], flip);
      FlipIsSwap(a.items[i], b.items[i], !flip);
      FlipItems(a, b, i + 1, flip);
    }
  }

  lemma {:induction false} FlipMembers(a: Json, b: Json, ks: seq<string>, ls: seq<string>, i: nat, flip: bool)
    requires a.Object? && b.Object? && i <= |ks| && i <= |ls|
    requires (forall k | k in ks :: k in a.members) && (forall l | l in ls :: l in b.members)
    ensures MembersBefore(a, b, ks, ls, i, flip) == MembersBefore(b, a, ls, ks, i, !flip)
    decreases a, 0, |ks| - i
  {
    if i < |ks| && i < |ls| {
      var k, l := ks[i], ls[i];
      assert k in ks && l in ls;
      FlipIsSwap(a.members[k], b.members[l], flip);
      FlipIsSwap(a.members[k], b.members[l], !flip);
      FlipMembers(a, b, ks, ls, i + 1, flip);
    }
  }

  // ----- a total order on the representatives ----------------------------------

  predicate ExactlyOne(p: bool, q: bool, r: bool) {
    (p || q || r) && !(p && q) && !(p && r) && !(q && r)
  }

  lemma {:induction false} Trichotomy(a: Json, b: Json, d: Domain)
    requires IsCanonical(a, d) && IsCanonical(b, d)
    ensures ExactlyOne(Before(a, b, false), a == b, Before(a, b, true))
    decreases a, 1, 0
  {
    hide ScalarLess, Before, ItemsBefore, MembersBefore, SortedKeys;
    BeforeBy(a, b, false);
    BeforeBy(a, b, true);
    if a.Array? && b.Array? {
      ItemsTrichotomy(a, b, 0, d);
    } else if a.Object? && b.Object? {
      MembersTrichotomy(a, b, SortedKeys(a.members.Keys), SortedKeys(b.members.Keys), 0, d);
    } else {
      ScalarTrichotomy(a, b, d);
    }
  }

  lemma ScalarTrichotomy(a: Json, b: Json, d: Domain)
    requires IsCanonical(a, d) && IsCanonical(b, d)
    requires !(a.Array? && b.Array?) && !(a.Object? && b.Object?)
    ensures ExactlyOne(ScalarLess(a, b), a == b, ScalarLess(b, a))
  {
    hide Less, BytesLess;
    match (a, b)
    case (Binary(x, _), Binary(y, _)) => BytesTrichotomy(x, y);
    case (String(s), String(t)) => KeyTrichotomy(s, t);
    case _ =>
  }

  lemma {:induction false} ItemsTrichotomy(a: Json, b: Json, i: nat, d: Domain)
    requires a.Array? && b.Array? && i <= |a.items| && i <= |b.items| && IsCanonical(a, d) && IsCanonical(b, d)
    requires a.items[..i] == b.items[..i]
    ensures ExactlyOne(ItemsBefore(a, b, i, false), a == b, ItemsBefore(a, b, i, true))
    decreases a, 0, |a.items| - i
  {
    if i < |a.items| && i < |b.items| {
      Trichotomy(a.items[i], b.items[i], d);
      if a.items[i] == b.items[i] {
        ItemsTrichotomy(a, b, i + 1, d);
      }
    } else if |a.items| == |b.items| {
      assert a.items == a.items[..i] && b.items == b.items[..i];
    }
  }

  lemma KeyTrichotomy(k: string, l: string)
    ensures ExactlyOne(Less(k, l), k == l, Less(l, k))
  {
    Connected(k, l);
    Irreflexive(k);
    if Less(k, l) && Less(l, k) { Transitive(k, l, k); }
  }

  lemma {:induction false} MembersTrichotomy(a: Json, b: Json, ks: seq<string>, ls: seq<string>, i: nat, d: Domain)
    requires a.Object? && b.Object? && i <= |ks| && i <= |ls| && IsCanonical(a, d) && IsCanonical(b, d)
    requires (forall k :: k in ks <==> k in a.members) && (forall l :: l in ls <==> l in b.members)
    requires ks[..i] == ls[..i] && forall j | 0 <= j < i :: a.members[ks[j]] == b.members[ks[j]]
    requires a == b ==> ks == ls
    ensures ExactlyOne(MembersBefore(a, b, ks, ls, i, false), a == b, MembersBefore(a, b, ks, ls, i, true))
    decreases a, 0, |ks| - i
  {
    if i < |ks| && i < |ls| {
      var k, l := ks[i], ls[i];
      assert k in ks && l in ls;
      KeyTrichotomy(k, l);
      if k == l {
        Trichotomy(a.members[k], b.members[k], d);
        if a.members[k] == b.members[k] {
          assert ks[..i + 1] == ls[..i + 1];
          MembersTrichotomy(a, b, ks, ls, i + 1, d);
        }
      }
    } else if |ks| == |ls| {
      assert ks == ks[..i] && ls == ls[..i];
      assert a.members == b.members;
    }
  }

  lemma {:induction false} BeforeTransitive(a: Json, b: Json, c: Json, d: Domain)
    requires IsCanonical(a, d) && IsCanonical(b, d) && IsCanonical(c, d)
    ensures !Before(a, b, false) || !Before(b, c, false) || Before(a, c, false)
    decreases a, 1, 0
  {
    hide ScalarLess, Before, ItemsBefore, MembersBefore, SortedKeys, IsCanonical;
    BeforeBy(a, b, false);
    BeforeBy(b, c, false);
    BeforeBy(a, c, false);
    if a.Array? && b.Array? && c.Array? {
      ItemsTransitive(a, b, c, 0, d);
    } else if a.Object? && b.Object? && c.Object? {
      var ks, ls, ms := SortedKeys(a.members.Keys), SortedKeys(b.members.Keys), SortedKeys(c.members.Keys);
      MembersTransitive(a, b, c, ks, ls, ms, 0, d);
    } else if TypeRank(a) == TypeRank(b) == TypeRank(c) {
      SameRank(a, b, c, d);
      ScalarTransitive(a, b, c, d);
    } else {
      DifferentRanks(a, b, d);
      DifferentRanks(b, c, d);
      DifferentRanks(a, c, d);
    }
  }

  lemma SameRank(a: Json, b: Json, c: Json, d: Domain)
    requires IsCanonical(a, d) && IsCanonical(b, d) && IsCanonical(c, d) && TypeRank(a) == TypeRank(b) == TypeRank(c)
    ensures a.Array? == b.Array? == c.Array? && a.Object? == b.Object? == c.Object?
  {
  }

  /** Values of different types are compared by their types. */
  lemma DifferentRanks(a: Json, b: Json, d: Domain)
    requires IsCanonical(a, d) && IsCanonical(b, d)
    ensures TypeRank(a) == TypeRank(b) || Before(a, b, false) == (TypeRank(a) < TypeRank(b))
  {
    hide Before, ItemsBefore, MembersBefore, SortedKeys;
    BeforeBy(a, b, false);
  }

  lemma ScalarTransitive(a: Json, b: Json, c: Json, d: Domain)
    requires IsCanonical(a, d) && IsCanonical(b, d) && IsCanonical(c, d)
    requires TypeRank(a) == TypeRank(b) == TypeRank(c) && !a.IsStructured()
    ensures !ScalarLess(a, b) || !ScalarLess(b, c) || ScalarLess(a, c)
  {
    hide Less, BytesLess;
    if a.String? && Less(a.s, b.s) && Less(b.s, c.s) {
      Transitive(a.s, b.s, c.s);
    } else if a.Binary? {
      BytesTransitive(a.bytes, b.bytes, c.bytes);
    }
  }

  lemma {:induction false} BytesTrichotomy(x: seq<int>, y: seq<int>)
    ensures ExactlyOne(BytesLess(x, y), x == y, BytesLess(y, x))
  {
    if x != [] && y != [] && x[0] == y[0] {
      BytesTrichotomy(x[1..], y[1..]);
      assert x == [x[0]] + x[1..] && y == [y[0]] + y[1..];
    }
  }

  lemma {:induction false} BytesTransitive(x: seq<int>, y: seq<int>, z: seq<int>)
    ensures !BytesLess(x, y) || !BytesLess(y, z) || BytesLess(x, z)
  {
    if x != [] && y != [] && z != [] && x[0] == y[0] == z[0] {
      BytesTransitive(x[1..], y[1..], z[1..]);
    }
  }

  lemma {:induction false} ItemsTransitive(a: Json, b: Json, c: Json, i: nat, d: Domain)
    requires a.Array? && b.Array? && c.Array? && i <= |a.items| && i <= |b.items| && i <= |c.items|
    requires IsCanonical(a, d) && IsCanonical(b, d) && IsCanonical(c, d)
    ensures !ItemsBefore(a, b, i, false) || !ItemsBefore(b, c, i, false) || ItemsBefore(a, c, i, false)
    decreases a, 0, |a.items| - i
  {
    if i < |a.items| && i < |b.items| && i < |c.items| {
      var x, y, z := a.items[i], b.items[i], c.items[i];
      Trichotomy(x, y, d);
      Trichotomy(y, z, d);
      Trichotomy(x, z, d);
      if x == y && y == z {
        ItemsTransitive(a, b, c, i + 1, d);
      } else {
        BeforeTransitive(x, y, z, d);
      }
    }
  }

  lemma {:induction false} MembersTransitive(a: Json, b: Json, c: Json, ks: seq<string>, ls: seq<string>,
                                             ms: seq<string>, i: nat, d: Domain)
    requires a.Object? && b.Object? && c.Object? && i <= |ks| && i <= |ls| && i <= |ms|
    requires IsCanonical(a, d) && IsCanonical(b, d) && IsCanonical(c, d)
    requires forall k | k in ks :: k in a.members
    requires forall k | k in ls :: k in b.members
    requires forall k | k in ms :: k in c.members
    ensures !MembersBefore(a, b, ks, ls, i, false) || !MembersBefore(b, c, ls, ms, i, false) ||
            MembersBefore(a, c, ks, ms, i, false)
    decreases a, 0, |ks| - i
  {
    if i < |ks| && i < |ls| && i < |ms| {
      var k, l, m := ks[i], ls[i], ms[i];
      assert k in ks && l in ls && m in ms;
      KeyTrichotomy(k, l);
      KeyTrichotomy(l, m);
      KeyTrichotomy(k, m);
      if Less(k, l) && Less(l, m) {
        Transitive(k, l, m);
      }
      if k == l && l == m {
        var x, y, z := a.members[k], b.members[l], c.members[m];
        Trichotomy(x, y, d);
        Trichotomy(y, z, d);
        Trichotomy(x, z, d);
        if x == y && y == z {
          MembersTransitive(a, b, c, ks, ls, ms, i + 1, d);
        } else {
          BeforeTransitive(x, y, z, d);
        }
      }
    }
  }

  // ----- the order on values ---------------------------------------------------

  /** On orderable values exactly one of a < b, a == b and b < a holds. */
  lemma OrderIsTotal(a: Json, b: Json, d: Domain)
    requires Orderable(a, d) && Orderable(b, d)
    ensures ExactlyOne(LibLess(a, b), LibEq(a, b), LibLess(b, a))
  {
    hide Orderable, Canonical, IsCanonical, LibEq, Before;
    CanonicalIsCanonical(a, d);
    CanonicalIsCanonical(b, d);
    EqualIsCanonical(a, b, d);
    BeforeIsCanonical(a, b, false, d);
    BeforeIsCanonical(a, b, true, d);
    FlipIsSwap(a, b, true);
    Trichotomy(Canonical(a), Canonical(b), d);
  }

  lemma LessIsTransitive(a: Json, b: Json, c: Json, d: Domain)
    requires Orderable(a, d) && Orderable(b, d) && Orderable(c, d)
    ensures !LibLess(a, b) || !LibLess(b, c) || LibLess(a, c)
  {
    hide Orderable, Canonical, IsCanonical, Before;
    BeforeIsCanonical(a, b, false, d);
    BeforeIsCanonical(b, c, false, d);
    BeforeIsCanonical(a, c, false, d);
    CanonicalIsCanonical(a, d);
    CanonicalIsCanonical(b, d);
    CanonicalIsCanonical(c, d);
    BeforeTransitive(Canonical(a), Canonical(b), Canonical(c), d);
  }

  /** Equal values are less than and greater than the same values, and equal to the same. */
  lemma EqualsAreAlike(a: Json, b: Json, c: Json, d: Domain)
    requires Orderable(a, d) && Orderable(b, d) && Orderable(c, d) && LibEq(a, b)
    ensures LibEq(a, c) == LibEq(b, c) && LibLess(a, c) == LibLess(b, c) && LibLess(c, a) == LibLess(c, b)
  {
    hide Orderable, LibEq, LibLess;
    EqualToTheSame(a, b, c, d);
    BeforeTheSame(a, b, c, false, d);
    BeforeTheSame(a, b, c, true, d);
    LessIsBefore(a, c);
    LessIsBefore(b, c);
  }

  lemma EqualToTheSame(a: Json, b: Json, c: Json, d: Domain)
    requires Orderable(a, d) && Orderable(b, d) && Orderable(c, d) && LibEq(a, b)
    ensures LibEq(a, c) == LibEq(b, c)
  {
    hide Orderable, Canonical, LibEq, TypeRank;
    EqualIsCanonical(a, b, d);
    EqualIsCanonical(a, c, d);
    EqualIsCanonical(b, c, d);
  }

  lemma BeforeTheSame(a: Json, b: Json, c: Json, flip: bool, d: Domain)
    requires Orderable(a, d) && Orderable(b, d) && Orderable(c, d) && LibEq(a, b)
    ensures Before(a, c, flip) == Before(b, c, flip)
  {
    hide Orderable, Canonical, LibEq, Before, TypeRank;
    EqualIsCanonical(a, b, d);
    BeforeIsCanonical(a, c, flip, d);
    BeforeIsCanonical(b, c, flip, d);
  }

  lemma LessIsBefore(a: Json, c: Json)
    ensures LibLess(a, c) == Before(a, c, false) && LibLess(c, a) == Before(a, c, true)
  {
    hide Before;
    FlipIsSwap(c, a, false);
  }

  lemma NotLessThanItself(a: Json, d: Domain)
    requires Orderable(a, d)
    ensures !LibLess(a, a)
  {
    hide Orderable, LibEq, LibLess;
    OrderIsTotal(a, a, d);
  }

  /** `operator<` is a strict weak order on orderable values, and the values it cannot
      tell apart are exactly those that `operator==` equates. */
  lemma StrictWeakOrder(a: Json, b: Json, c: Json, d: Domain)
    requires Orderable(a, d) && Orderable(b, d) && Orderable(c, d)
    ensures !LibLess(a, a)
    ensures !LibLess(a, b) || !LibLess(b, c) || LibLess(a, c)
    ensures (!LibLess(a, b) && !LibLess(b, a)) == LibEq(a, b)
    ensures !LibEq(a, b) || !LibEq(b, c) || LibEq(a, c)
    ensures !LibEq(a, b) || (LibLess(a, c) == LibLess(b, c) && LibLess(c, a) == LibLess(c, b))
  {
    hide Orderable, LibEq, LibLess;
    NotLessThanItself(a, d);
    OrderIsTotal(a, b, d);
    LessIsTransitive(a, b, c, d);
    if LibEq(a, b) { EqualsAreAlike(a, b, c, d); }
  }

  /** Every value is less than the next one, and the last less than the first. */
  predicate IsCycle(s: seq<Json>) {
    s != [] && forall i | 0 <= i < |s| :: LibLess(s[i], if i + 1 < |s| then s[i + 1] else s[0])
  }

  /** The bound on unsigned numbers cannot be weakened: every unsigned number from 2^63 on
      takes part in a cycle of `operator<`. */
  lemma LargeUnsignedCycle(u: uint64)
    requires u >= TWO_63
    ensures IsCycle([Unsigned(u), Integer(0), Unsigned(1)])
  {
    hide LibLess;
    LessOfScalars(Unsigned(u), Integer(0));
    LessOfScalars(Integer(0), Unsigned(1));
    LessOfScalars(Unsigned(1), Unsigned(u));
  }

  /** Nor can binary values be let in: with the same bytes and different subtypes neither is
      less and they are not equal. */
  lemma BinarySubtypesIncomparable(bytes: seq<int>, s: Subtype, t: Subtype)
    ensures !LibLess(Binary(bytes, s), Binary(bytes, t)) && (LibEq(Binary(bytes, s), Binary(bytes, t)) <==> s == t)
  {
    hide LibLess;
    LessOfScalars(Binary(bytes, s), Binary(bytes, t));
    BytesTrichotomy(bytes, bytes);
  }

  // ----- integers that are no doubles ----------------------------------------------

  /** The same number as the integer is rounded to. */
  function Partner(n: int64): Json
    requires Rounded(n) <= TWO_63 && Rounded(n) >= -TWO_63
  {
    if Rounded(n) < TWO_63 then Integer(Rounded(n)) else Unsigned(TWO_63)
  }

  /** Nor can integers that are no doubles be let in beside floats: each of them equals a float
      that equals another integer, which it does not equal. */
  lemma InexactBreaksEquality(j: Json)
    requires (j.Integer? && !Exact(j.i)) || (j.Unsigned? && j.u < TWO_63 && !Exact(j.u))
    ensures var n := if j.Integer? then j.i else j.u;
            && -TWO_63 <= Rounded(n) <= TWO_63
            && LibEq(j, Float(ToDouble(n))) && LibEq(Float(ToDouble(n)), Partner(n)) && !LibEq(j, Partner(n))
  {
    hide Rounded;
    var n := if j.Integer? then j.i else j.u;
    RoundedInRange(n);
    RoundedTwice(n);
  }

  lemma RoundedInRange(n: int)
    requires -TWO_63 <= n <= TWO_63
    ensures -TWO_63 <= Rounded(n) <= TWO_63 && (n < 0 ==> Rounded(n) <= 0)
  {
    hide LastPlace, RoundToMultiple, Pow;
    var m: nat := if n < 0 then -n else n;
    PowersOfTwo();
    PlaceDividesPower(m, 63);
    RoundStaysBelow(m, LastPlace(m), TWO_63);
  }

  lemma RoundedTwice(n: int)
    ensures Exact(Rounded(n))
  {
    hide LastPlace, RoundToMultiple;
    var m: nat := if n < 0 then -n else n;
    var q := LastPlace(m);
    PlaceBound(m);
    var c := RoundedCount(m, q);
    PlaceDividesMultiple(m, c);
    RoundOfMultiple(c * q, LastPlace(c * q));
  }

  /** The last place of a number up to 2^k divides 2^k. */
  lemma {:induction false} PlaceDividesPower(m: nat, k: nat)
    requires m <= Pow(2, k)
    ensures Pow(2, k) % LastPlace(m) == 0
    decreases m
  {
    if m >= LIMIT {
      NotSmall(k);
      PlaceDividesPower(m / 2, k - 1);
      TwiceDivides(LastPlace(m / 2), Pow(2, k - 1));
    }
  }

  const LIMIT: nat := 0x20_0000_0000_0000   // 2^53

  lemma NotSmall(k: nat)
    requires Pow(2, k) >= LIMIT
    ensures k > 0
  {
  }

  lemma TwiceDivides(q: nat, x: nat)
    requires q > 0 && x % q == 0
    ensures (2 * x) % (2 * q) == 0
  {
    var c := x / q;
    assert x == q * c;
    assert 2 * x == (2 * q) * c;
    Remainder(2 * x, 2 * q, c, 0);
  }

  /** 53 places hold a number in units of its last place. */
  lemma {:induction false} PlaceBound(m: nat)
    ensures m < LIMIT * LastPlace(m)
  {
    if m >= LIMIT { PlaceBound(m / 2); }
  }

  /** A number of up to 53 places, in units of some last place, is a multiple of its own. */
  lemma {:induction false} PlaceDividesMultiple(m: nat, c: nat)
    requires c <= LIMIT
    ensures (c * LastPlace(m)) % LastPlace(c * LastPlace(m)) == 0
  {
    var q := LastPlace(m);
    if m >= LIMIT && c * q >= LIMIT {
      var h := LastPlace(m / 2);
      assert c * q == 2 * (c * h);
      PlaceDividesMultiple(m / 2, c);
      TwiceDivides(LastPlace(c * h), c * h);
    } else if c * q == LIMIT {
      assert LastPlace(LIMIT) == 2 * LastPlace(LIMIT / 2);
      assert LastPlace(LIMIT / 2) == 1;
    }
  }

  /** In units of the last place. */
  lemma RoundedCount(m: nat, q: nat) returns (c: nat)
    requires q > 0 && m < LIMIT * q
    ensures c <= LIMIT && RoundToMultiple(m, q) == c * q
  {
    var k := m / q;
    assert m == q * k + m % q;
    if k >= LIMIT { Mono(q, LIMIT, k); }
    c := if RoundToMultiple(m, q) == m - m % q then k else k + 1;
    assert (k + 1) * q == q * k + q;
  }

  lemma RoundOfMultiple(n: nat, q: nat)
    requires q > 0 && n % q == 0
    ensures RoundToMultiple(n, q) == n
  {
  }

  lemma RoundStaysBelow(m: nat, q: nat, b: nat)
    requires q > 0 && m <= b && b % q == 0
    ensures RoundToMultiple(m, q) <= b
  {
    hide RoundToMultiple;
    var k, c := m / q, b / q;
    DivMod(m, q);
    DivMod(b, q);
    RoundUnits(m, q);
    if k < c {
      Mono(q, k + 1, c);
      NextMultiple(q, k);
    } else {
      Mono(q, c, k);
      RoundOfMultiple(b, q);
    }
  }

  lemma DivMod(m: nat, q: nat)
    requires q > 0
    ensures m == q * (m / q) + m % q && m % q < q
  {
  }

  lemma NextMultiple(q: nat, k: nat)
    ensures q * (k + 1) == q * k + q
  {
  }

  lemma RoundUnits(m: nat, q: nat)
    requires q > 0
    ensures RoundToMultiple(m, q) <= m - m % q + q
  {
  }

  /** A value of 53 binary places, in units of 2^k; it needs no more than that many units, and
      uses all places unless the unit is one. */
  predicate FitsPlaces(m: nat, k: nat) {
    m < 0x20_0000_0000_0000 * Pow(2, k) && (k > 0 ==> m >= 0x10_0000_0000_0000 * Pow(2, k))
  }

  /** Of the multiples of q none is nearer to m than c q, and only an even one is as near. */
  predicate RoundsTo(m: nat, c: nat, q: nat) {
    var off := 2 * (m - c * q);
    -1 * q <= off <= q && (off == q || off == -1 * q ==> c % 2 == 0)
  }

  /** The cast to a double yields the nearest number of 53 binary places, of two equally near the
      even one, and keeps the sign. */
  lemma CastIsNearest(m: nat)
    ensures exists k: nat, c: nat :: FitsPlaces(m, k) && RoundsTo(m, c, Pow(2, k)) && Rounded(m) == c * Pow(2, k)
    ensures Rounded(-1 * m) == -1 * Rounded(m)
  {
    hide LastPlace, Pow, RoundToMultiple, RoundsTo, FitsPlaces;
    var k := PlaceIsPower(m);
    var c := RoundedToEven(m, LastPlace(m));
    assert Rounded(m) == c * Pow(2, k);
  }

  lemma {:induction false} PlaceIsPower(m: nat) returns (k: nat)
    ensures LastPlace(m) == Pow(2, k) && FitsPlaces(m, k)
    decreases m
  {
    PowZero(2);
    if m < 0x20_0000_0000_0000 {
      k := 0;
    } else {
      var l := PlaceIsPower(m / 2);
      k := l + 1;
      PowFirst(2, k);
    }
  }

  lemma RoundedToEven(m: nat, q: nat) returns (c: nat)
    requires q > 0
    ensures RoundToMultiple(m, q) == c * q && RoundsTo(m, c, q)
  {
    var k := m / q;
    DivMod(m, q);
    NextMultiple(q, k);
    c := if RoundToMultiple(m, q) == m - m % q then k else k + 1;
  }

  /** As 2^53 + 1, which rounds to 2^53. */
  lemma SomeIntegerIsInexact()
    ensures !Exact(0x20_0000_0000_0001)
  {
    assert LastPlace(0x10_0000_0000_0000) == 1;
    assert LastPlace(0x20_0000_0000_0001) == 2;
    assert RoundToMultiple(0x20_0000_0000_0001, 2) == 0x20_0000_0000_0000;
  }

  /** The order of the types: null, boolean, number, object, array, string, binary. */
  lemma TypesInOrder(a: Json, b: Json)
    requires !SameType(a, b) && !(a.IsNumber() && b.IsNumber()) && !a.Discarded? && !b.Discarded?
    ensures LibLess(a, b) == (Position(a) < Position(b))
  {
    hide LibLess;
    LessOfScalars(a, b);
  }

  function Position(j: Json): nat {
    if j.Null? then 0 else if j.Boolean? then 1 else if j.IsNumber() then 2 else if j.Object? then 3
    else if j.Array? then 4 else if j.String? then 5 else 6
  }

  /** -1, 0 or 1 as `operator<` says. */
  function Compare(a: Json, b: Json): int {
    if LibLess(a, b) then -1 else if LibLess(b, a) then 1 else 0
  }

  /** Of two arrays that agree up to some index, the elements there decide; an array is less
      than every longer one that it begins. */
  lemma FirstDifferenceDecides(x: seq<Json>, y: seq<Json>, i: nat)
    requires i <= |x| && i <= |y| && (i == |x| || i == |y| || Compare(x[i], y[i]) != 0)
    requires forall k | 0 <= k < i :: Compare(x[k], y[k]) == 0
    ensures LibLess(Array(x), Array(y)) == (i < |y| && (i == |x| || Compare(x[i], y[i]) == -1))
  {
    hide Compare;
    DecidedFrom(Array(x), Array(y), 0, i);
  }

  lemma {:induction false} DecidedFrom(a: Json, b: Json, from: nat, i: nat)
    requires a.Array? && b.Array? && from <= i <= |a.items| && i <= |b.items|
    requires i == |a.items| || i == |b.items| || Compare(a.items[i], b.items[i]) != 0
    requires forall k | 0 <= k < i :: Compare(a.items[k], b.items[k]) == 0
    ensures ItemsBefore(a, b, from, false) ==
            (i < |b.items| && (i == |a.items| || Compare(a.items[i], b.items[i]) == -1))
    decreases i - from
  {
    if from < |a.items| && from < |b.items| {
      FlipIsSwap(a.items[from], b.items[from], true);
      if from < i {
        assert Compare(a.items[from], b.items[from]) == 0;
        DecidedFrom(a, b, from + 1, i);
      }
    }
  }

  /** Of two strings that agree up to some position, the smaller character there decides; a
      string is less than every longer one that it begins. */
  lemma StringsInOrder(s: string, t: string, i: nat)
    requires i <= |s| && i <= |t| && s[..i] == t[..i] && (i == |s| || i == |t| || s[i] != t[i])
    ensures LibLess(String(s), String(t)) <==> i < |t| && (i == |s| || s[i] < t[i])
  {
    hide LibLess, Less;
    LessOfKeys(s, t);
    LessMeans(s, t, i);
  }

  /** Binary values likewise, by their bytes. */
  lemma BinariesInOrder(x: seq<int>, y: seq<int>, i: nat, s: Subtype, t: Subtype)
    requires i <= |x| && i <= |y| && x[..i] == y[..i] && (i == |x| || i == |y| || x[i] != y[i])
    ensures LibLess(Binary(x, s), Binary(y, t)) <==> i < |y| && (i == |x| || x[i] < y[i])
  {
    hide LibLess, BytesLess;
    LessOfScalars(Binary(x, s), Binary(y, t));
    BytesLessMeans(x, y, i);
  }

  lemma {:induction false} BytesLessMeans(x: seq<int>, y: seq<int>, i: nat)
    requires i <= |x| && i <= |y| && x[..i] == y[..i] && (i == |x| || i == |y| || x[i] != y[i])
    ensures BytesLess(x, y) <==> i < |y| && (i == |x| || x[i] < y[i])
    decreases i
  {
    if i > 0 {
      assert x[..i][0] == x[0] && y[..i][0] == y[0];
      assert x[1..][..i - 1] == x[..i][1..] && y[1..][..i - 1] == y[..i][1..];
      BytesLessMeans(x[1..], y[1..], i - 1);
    }
  }

  /** What a number is compared as: an integer beside a float is rounded, and every number is
      finite, infinite or NaN. */
  function Measure(j: Json, float: bool): Double
    requires j.IsNumber()
  {
    match j
    case Float(f) => f
    case Integer(i) => Finite((if float then Rounded(i) else i) as real)
    case Unsigned(u) => Finite((if float then Rounded(u) else u) as real)
  }

  /** Numbers: as their values say, -infinity first and +infinity last; NaN is neither less nor
      equal.  Beside an integer an unsigned number must be below 2^63 to count by its value. */
  lemma NumbersInOrder(a: Json, b: Json)
    requires a.IsNumber() && b.IsNumber()
    requires a.Unsigned? && b.Integer? ==> a.u < 0x8000_0000_0000_0000
    requires b.Unsigned? && a.Integer? ==> b.u < 0x8000_0000_0000_0000
    ensures var x, y := Measure(a, b.Float?), Measure(b, a.Float?);
            && (LibLess(a, b) <==>
                  || (x.Finite? && y.Finite? && x.value < y.value)
                  || (x == Infinity(true) && (y.Finite? || y == Infinity(false)))
                  || (x.Finite? && y == Infinity(false)))
            && (LibEq(a, b) <==> !x.NaN? && x == y)
  {
    hide LibLess, Rounded;
    LessOfScalars(a, b);
  }

  /** false is less than true, and null and a discarded value are less than nothing of their type. */
  lemma ConstantsInOrder(x: bool, y: bool)
    ensures LibLess(Boolean(x), Boolean(y)) <==> !x && y
    ensures !LibLess(Null, Null) && !LibLess(Discarded, Discarded)
  {
    hide LibLess;
    LessOfScalars(Boolean(x), Boolean(y));
    LessOfScalars(Null, Null);
    LessOfScalars(Discarded, Discarded);
  }

  /** A discarded value is neither less nor greater than any other. */
  lemma DiscardedIsUnordered(j: Json)
    ensures !LibLess(Discarded, j) && !LibLess(j, Discarded)
  {
    hide LibLess;
    LessOfScalars(Discarded, j);
    LessOfScalars(j, Discarded);
  }

  /** Of two objects that agree up to some position of their key orders, the first differing
      key decides, or the first differing value under the same key; an object is less than
      every longer one that it begins. */
  lemma FirstMemberDecides(m: map<string, Json>, n: map<string, Json>, i: nat)
    requires i <= |m| && i <= |n|
    requires var ks, ls := SortedKeys(m.Keys), SortedKeys(n.Keys);
             && (forall j | 0 <= j < i :: ks[j] == ls[j] && Compare(m[ks[j]], n[ls[j]]) == 0)
             && (i == |ks| || i == |ls| || ks[i] != ls[i] || Compare(m[ks[i]], n[ls[i]]) != 0)
    ensures var ks, ls := SortedKeys(m.Keys), SortedKeys(n.Keys);
            LibLess(Object(m), Object(n)) ==
            (i < |ls| && (i == |ks| || LibLess(String(ks[i]), String(ls[i])) ||
                          (ks[i] == ls[i] && Compare(m[ks[i]], n[ls[i]]) == -1)))
  {
    hide Compare, SortedKeys, LibLess, MembersBefore, Less;
    var ks, ls := SortedKeys(m.Keys), SortedKeys(n.Keys);
    LessOfObjects(m, n);
    MembersDecidedFrom(Object(m), Object(n), ks, ls, 0, i);
    if i < |ks| && i < |ls| { LessOfKeys(ks[i], ls[i]); }
  }

  lemma LessOfObjects(m: map<string, Json>, n: map<string, Json>)
    ensures LibLess(Object(m), Object(n)) ==
            MembersBefore(Object(m), Object(n), SortedKeys(m.Keys), SortedKeys(n.Keys), 0, false)
  {
    hide MembersBefore, SortedKeys;
  }

  lemma LessOfKeys(k: string, l: string)
    ensures LibLess(String(k), String(l)) == Less(k, l)
  {
    hide Less;
    LessOfScalars(String(k), String(l));
  }

  lemma {:induction false} MembersDecidedFrom(a: Json, b: Json, ks: seq<string>, ls: seq<string>, from: nat, i: nat)
    requires a.Object? && b.Object? && from <= i <= |ks| && i <= |ls|
    requires (forall k | k in ks :: k in a.members) && (forall l | l in ls :: l in b.members)
    requires forall j | from <= j < i :: ks[j] == ls[j] && Compare(a.members[ks[j]], b.members[ls[j]]) == 0
    requires i == |ks| || i == |ls| || ks[i] != ls[i] || Compare(a.members[ks[i]], b.members[ls[i]]) != 0
    ensures MembersBefore(a, b, ks, ls, from, false) ==
            (i < |ls| && (i == |ks| || Less(ks[i], ls[i]) ||
                          (ks[i] == ls[i] && Compare(a.members[ks[i]], b.members[ls[i]]) == -1)))
    decreases i - from
  {
    hide Less;
    if from < |ks| && from < |ls| {
      var k, l := ks[from], ls[from];
      FlipIsSwap(a.members[k], b.members[l], true);
      KeyTrichotomy(k, l);
      if from < i { MembersDecidedFrom(a, b, ks, ls, from + 1, i); }
    }
  }

  lemma LessOfScalars(a: Json, b: Json)
    requires !(a.Array? && b.Array?) && !(a.Object? && b.Object?)
    ensures LibLess(a, b) == ScalarLess(a, b)
  {
  }
}
