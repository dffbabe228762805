/**
 Unflattening what was flattened: exactly when the value comes back, with every empty
 array and object turned into null.
 */
module FlattenRoundTrip {
  import opened JsonValue
  import opened JsonPointer
  import opened Digits
  import opened StringEscape
  import opened TextOrder
  import opened Flatten
  import opened FlattenSteps

  // ----- the condition ----------------------------------------------------------

  /** Whether the entries below key `k` are visited after those below key "0" of the same
      object; `leaf` tells whether the value under "0" is a leaf. */
  predicate AfterZero(k: string, leaf: bool) {
    var e := Escaped(k);
    e != "" && (e[0] > '0' || (e[0] == '0' && (leaf || |e| == 1 || e[1] > '/')))
  }

  /** The object whose first visited entry lies below its key "0": null is then taken for
      the start of an array. */
  predicate ZeroFirst(m: map<string, Json>) {
    "0" in m && forall k | k in m.Keys :: k == "0" || AfterZero(k, IsLeaf(m["0"]))
  }

  predicate NoZeroFirst(j: Json) {
    match j
    case Array(a) => forall i | 0 <= i < |a| :: NoZeroFirst(a[i])
    case Object(m) => !ZeroFirst(m) && forall k | k in m.Keys :: NoZeroFirst(m[k])
    case _ => true
  }

  predicate NoDiscarded(j: Json) {
    match j
    case Array(a) => forall i | 0 <= i < |a| :: NoDiscarded(a[i])
    case Object(m) => forall k | k in m.Keys :: NoDiscarded(m[k])
    case _ => !j.Discarded?
  }

  /** No object has the key "0". */
  predicate NoZeroKey(j: Json) {
    match j
    case Array(a) => forall i | 0 <= i < |a| :: NoZeroKey(a[i])
    case Object(m) => "0" !in m && forall k | k in m.Keys :: NoZeroKey(m[k])
    case _ => true
  }

  lemma {:induction false} NoZeroKeySuffices(j: Json)
    requires NoZeroKey(j)
    ensures NoZeroFirst(j)
  {
    match j
    case Array(a) => forall i | 0 <= i < |a| ensures NoZeroFirst(a[i]) { NoZeroKeySuffices(a[i]); }
    case Object(m) => forall k | k in m.Keys ensures NoZeroFirst(m[k]) { NoZeroKeySuffices(m[k]); }
    case _ =>
  }

  // ----- the order of the entries -----------------------------------------------

  lemma TextBelow(q: Path, t: string, r: Path)
    ensures ToText(q + [t] + r) == ToText(q) + "/" + (Escaped(t) + ToText(r))
  {
    ToTextConcat(q + [t], r);
    ToTextAppend(q, t);
  }

  lemma TextStart(r: Path)
    ensures r == [] ==> ToText(r) == ""
    ensures r != [] ==> ToText(r) != "" && ToText(r)[0] == '/'
  {
    if r != [] { TextHead(r); }
  }

  /** The entries below an array's index "0" come before those below its other indices. */
  lemma ZeroIndexFirst(q: Path, i: nat, r0: Path, r: Path)
    requires i > 0
    ensures Less(ToText(q + ["0"] + r0), ToText(q + [IndexText(i)] + r))
  {
    hide ToText, IndexText, Escaped;
    TextBelow(q, "0", r0);
    TextBelow(q, IndexText(i), r);
    IndexTextNumber(i);
    DigitsAreNotEscaped(IndexText(i));
    ZeroText();
    var t := IndexText(i);
    assert IsDigit(t[0]) && t[0] != '0';
    CommonPrefix(ToText(q) + "/", "0" + ToText(r0), t + ToText(r));
  }

  lemma ZeroText()
    ensures Escaped("0") == "0"
  {
    assert Escaped("0") == "0" + Escaped("");
  }

  /** The entries below two keys of one object are ordered as `AfterZero` says. */
  lemma ZeroKeyOrder(q: Path, k: string, r0: Path, r: Path)
    requires k != "0"
    ensures AfterZero(k, r0 == []) ==> Less(ToText(q + ["0"] + r0), ToText(q + [k] + r))
    ensures !AfterZero(k, r0 == []) ==> Less(ToText(q + [k] + r), ToText(q + ["0"] + r0))
  {
    hide ToText, Escaped, Less, AfterZero;
    TextBelow(q, "0", r0);
    TextBelow(q, k, r);
    ZeroText();
    ZeroKeyTail(k, r0, r);
    CommonPrefix(ToText(q) + "/", "0" + ToText(r0), Escaped(k) + ToText(r));
    CommonPrefix(ToText(q) + "/", Escaped(k) + ToText(r), "0" + ToText(r0));
  }

  /** The same behind the common prefix. */
  lemma ZeroKeyTail(k: string, r0: Path, r: Path)
    requires k != "0"
    ensures AfterZero(k, r0 == []) ==> Less("0" + ToText(r0), Escaped(k) + ToText(r))
    ensures !AfterZero(k, r0 == []) ==> Less(Escaped(k) + ToText(r), "0" + ToText(r0))
  {
    hide ToText, Escaped, Less;
    TextStart(r0);
    TextStart(r);
    ZeroText();
    var e := Escaped(k);
    if e == "0" { EscapedInjective(k, "0"); }
    EscapedHasNoSlash(k);
    FirstCharacters(e, ToText(r0), ToText(r));
  }

  lemma EscapedHasNoSlash(k: string)
    ensures forall i | 0 <= i < |Escaped(k)| :: Escaped(k)[i] != '/'
  {
    hide Escaped;
    assert forall i | 0 <= i < |Escaped(k)| :: Escaped(k)[i] in Escaped(k);
  }

  /** "0" and another text without a slash, each followed by nothing or a slash. */
  lemma FirstCharacters(e: string, a: string, b: string)
    requires e != "0" && forall i | 0 <= i < |e| :: e[i] != '/'
    requires (a == "" || a[0] == '/') && (b == "" || b[0] == '/')
    ensures Less("0" + a, e + b) ==
            (e != "" && (e[0] > '0' || (e[0] == '0' && (a == "" || e[1] > '/'))))
    ensures Less("0" + a, e + b) || Less(e + b, "0" + a)
  {
    hide Less;
    var x, y := "0" + a, e + b;
    assert x[0] == '0' && x[1..] == a;
    LessByFirst(x, y);
    LessByFirst(y, x);
    if e == "" {
      assert y == b;
    } else {
      assert y[0] == e[0] && y[1..] == e[1..] + b;
      if e[0] == '0' {
        assert |e| > 1 by { OnlyZero(e); }
        SecondCharacters(e[1..], a, b);
      }
    }
  }

  lemma OnlyZero(e: string)
    requires e != "0" && e != "" && e[0] == '0'
    ensures |e| > 1
  {
    assert e == [e[0]] + e[1..];
  }

  lemma LessByFirst(x: string, y: string)
    ensures x != "" && y != "" ==> Less(x, y) == if x[0] != y[0] then x[0] < y[0] else Less(x[1..], y[1..])
    ensures x == "" || y == "" ==> Less(x, y) == (y != "")
  {
  }

  lemma SecondCharacters(e: string, a: string, b: string)
    requires e != "" && e[0] != '/' && (a == "" || a[0] == '/')
    ensures Less(a, e + b) == (a == "" || e[0] > '/') && (Less(a, e + b) || Less(e + b, a))
  {
    hide Less;
    assert (e + b)[0] == e[0];
    LessByFirst(a, e + b);
    LessByFirst(e + b, a);
  }

  /** The paths of the first `i` entries. */
  function Seen(keys: seq<string>, i: nat): set<Path>
    requires i <= |keys|
  {
    set l | 0 <= l < i && Parsed(keys[l]).Ok? :: Parsed(keys[l]).value
  }

  /** The entry keys of a value, in the order in which they are visited. */
  function EntryKeys(j: Json): (keys: seq<string>)
    ensures forall k :: k in keys <==> k in FlatMap("", j)
  {
    SortedKeys(FlatMap("", j).Keys)
  }

  lemma EntryKeysParse(j: Json, i: nat)
    requires Sized(j) && i < |EntryKeys(j)|
    ensures EntryKeys(j)[i] in FlatMap("", j)
    ensures Parsed(EntryKeys(j)[i]).Ok? && LeafPath(j, Parsed(EntryKeys(j)[i]).value)
    ensures FlatMap("", j)[EntryKeys(j)[i]] == LeafOut(At(j, Parsed(EntryKeys(j)[i]).value).value)
  {
    hide FlatMap, ToText, Less, At, Sized, LeafPath, SortedKeys, Tokens;
    assert EntryKeys(j)[i] in EntryKeys(j);
    EntryLeaf(j, EntryKeys(j)[i]);
  }

  /** The path of the entry visited at position `i`. */
  function PathOf(j: Json, i: nat): (p: Path)
    requires Sized(j) && i < |EntryKeys(j)|
    ensures Parsed(EntryKeys(j)[i]) == Ok(p) && LeafPath(j, p) && ToText(p) == EntryKeys(j)[i]
  {
    EntryKeysParse(j, i);
    PrintParse(EntryKeys(j)[i]);
    Parsed(EntryKeys(j)[i]).value
  }

  /** A leaf whose text is smaller has been visited before. */
  lemma SmallerIsSeen(j: Json, i: nat, p: Path)
    requires Sized(j) && i < |EntryKeys(j)| && LeafPath(j, p)
    requires Less(ToText(p), EntryKeys(j)[i])
    ensures p in Seen(EntryKeys(j), i)
  {
    hide FlatMap, ToText, Less, At, Sized, LeafPath, SortedKeys, Tokens;
    var keys := EntryKeys(j);
    EntryOfLeaf(j, p);
    ParsePrint(p);
    assert ToText(p) in keys;
    var l :| 0 <= l < |keys| && keys[l] == ToText(p);
    if l == i {
      Irreflexive(keys[i]);
    } else if l > i {
      Transitive(keys[i], keys[l], keys[i]);
      Irreflexive(keys[i]);
    }
  }

  lemma SeenGrows(j: Json, i: nat)
    requires Sized(j) && i < |EntryKeys(j)|
    ensures Seen(EntryKeys(j), i + 1) == Seen(EntryKeys(j), i) + {PathOf(j, i)}
  {
    hide EntryKeys, FlatMap, Parsed, LeafPath, Sized, ToText, Seen;
    GrowSeen(EntryKeys(j), i, PathOf(j, i));
  }

  lemma GrowSeen(keys: seq<string>, i: nat, p: Path)
    requires i < |keys| && Parsed(keys[i]) == Ok(p)
    ensures Seen(keys, i + 1) == Seen(keys, i) + {p}
  {
    hide Parsed;
  }

  lemma SeenAreLeafPaths(j: Json, i: nat)
    requires Sized(j) && i <= |EntryKeys(j)|
    ensures LeafPaths(j, Seen(EntryKeys(j), i))
  {
    var keys := EntryKeys(j);
    forall p | p in Seen(keys, i) ensures LeafPath(j, p) {
      var l :| 0 <= l < i && Parsed(keys[l]).Ok? && Parsed(keys[l]).value == p;
      EntryKeysParse(j, l);
    }
  }

  lemma AllSeen(j: Json)
    requires Sized(j)
    ensures forall p: Path :: p in Seen(EntryKeys(j), |EntryKeys(j)|) <==> LeafPath(j, p)
  {
    hide FlatMap, ToText, Less, At, Sized, LeafPath, SortedKeys, Tokens;
    var keys := EntryKeys(j);
    SeenAreLeafPaths(j, |keys|);
    forall p: Path | LeafPath(j, p) ensures p in Seen(keys, |keys|) {
      EntryOfLeaf(j, p);
      ParsePrint(p);
      assert ToText(p) in keys;
      var l :| 0 <= l < |keys| && keys[l] == ToText(p);
      assert Parsed(keys[l]).Ok? && Parsed(keys[l]).value == p;
    }
  }

  // ----- when a path can be added -----------------------------------------------

  predicate NoneBelow(s: set<Path>, q: Path) {
    forall o | o in s :: !(q <= o)
  }

  /** The guess made at depth `n` of the path is right, or no guess is made there. */
  predicate OpensAt(j: Json, s: set<Path>, p: Path, n: nat)
    requires LeafPath(j, p) && n < |p| && At(j, p[..n]).Ok?
  {
    NoneBelow(s, p[..n]) ==> (At(j, p[..n]).value.Array? <==> p[n] == "0")
  }

  lemma {:induction false} PrefixResolves(j: Json, p: Path, n: nat)
    requires At(j, p).Ok? && n <= |p|
    ensures At(j, p[..n]).Ok? && At(At(j, p[..n]).value, p[n..]) == At(j, p)
  {
    AtConcat(j, p[..n], p[n..]);
    assert p == p[..n] + p[n..];
  }

  /** `Opens` level by level. */
  lemma {:induction false} OpensLevels(j: Json, s: set<Path>, p: Path)
    requires LeafPath(j, p)
    ensures forall n | 0 <= n < |p| :: At(j, p[..n]).Ok?
    ensures Opens(j, s, p) <==> forall n | 0 <= n < |p| :: OpensAt(j, s, p, n)
    decreases |p|
  {
    forall n | 0 <= n < |p| ensures At(j, p[..n]).Ok? { PrefixResolves(j, p, n); }
    if p != [] {
      var t, r := p[0], p[1..];
      var c, below := Child(j, t).value, Below(s, t);
      OpensLevels(c, below, r);
      assert NoneBelow(s, []) <==> s == {};
      assert p[..0] == [];
      forall n | 0 <= n < |r| ensures OpensAt(c, below, r, n) <==> OpensAt(j, s, p, n + 1) {
        assert p[..n + 1] == [t] + r[..n];
        assert p[..n + 1][1..] == r[..n];
        NoneBelowStep(s, t, r[..n]);
      }
      if forall n | 0 <= n < |p| :: OpensAt(j, s, p, n) {
        assert OpensAt(j, s, p, 0);
        forall n | 0 <= n < |r| ensures OpensAt(c, below, r, n) { assert OpensAt(j, s, p, n + 1); }
      }
      if Opens(j, s, p) {
        forall n | 0 <= n < |p| ensures OpensAt(j, s, p, n) {
          if n > 0 { assert OpensAt(c, below, r, n - 1); }
        }
      }
    }
  }

  lemma NoneBelowStep(s: set<Path>, t: string, q: Path)
    ensures NoneBelow(s, [t] + q) <==> NoneBelow(Below(s, t), q)
  {
    var long, below := [t] + q, Below(s, t);
    forall o | o in s && long <= o ensures o[1..] in below && q <= o[1..] {
      assert o[0] == long[0] && o[1..|long|] == long[1..];
    }
    forall r | r in below && q <= r ensures [t] + r in s && long <= [t] + r {
      var o :| o in s && o != [] && o[0] == t && o[1..] == r;
      assert o == [t] + r;
    }
  }

  // ----- right guesses ------------------------------------------------------------

  lemma {:induction false} HasLeaf(j: Json) returns (p: Path)
    requires Sized(j)
    ensures LeafPath(j, p)
    ensures p == [] <==> IsLeaf(j)
  {
    if IsLeaf(j) {
      p := [];
    } else if j.Array? {
      var r := HasLeaf(j.items[0]);
      IndexIsChild(j, 0);
      LeafPathBelow(j, IndexText(0), r);
      p := [IndexText(0)] + r;
    } else {
      var k :| k in j.members.Keys;
      var r := HasLeaf(j.members[k]);
      LeafPathBelow(j, k, r);
      p := [k] + r;
    }
  }

  lemma {:induction false} SizedAt(j: Json, q: Path)
    requires Sized(j) && At(j, q).Ok?
    ensures Sized(At(j, q).value)
    decreases |q|
  {
    if q != [] { SizedAt(Child(j, q[0]).value, q[1..]); }
  }

  /** A leaf below a child of the value at `q`. */
  lemma LeafThrough(j: Json, q: Path, t: string, r: Path)
    requires Sized(j) && At(j, q).Ok? && ChildToken(At(j, q).value, t)
    requires Child(At(j, q).value, t).Ok? && LeafPath(Child(At(j, q).value, t).value, r)
    ensures LeafPath(j, q + [t] + r) && q <= q + [t] + r
  {
    SizedAt(j, q);
    LeafPathBelow(At(j, q).value, t, r);
    AtConcat(j, q, [t] + r);
    assert q + ([t] + r) == q + [t] + r;
  }

  /** A leaf path step by step: what lies before, at and behind its `n`-th token. */
  lemma SplitLeafPath(j: Json, p: Path, n: nat)
    requires Sized(j) && LeafPath(j, p) && n < |p| && At(j, p[..n]).Ok?
    ensures p == p[..n] + [p[n]] + p[n + 1..]
    ensures var x := At(j, p[..n]).value;
            ChildToken(x, p[n]) && Child(x, p[n]).Ok? && LeafPath(Child(x, p[n]).value, p[n + 1..])
  {
    PrefixResolves(j, p, n);
    SizedAt(j, p[..n]);
    ChildTokens(At(j, p[..n]).value, p[n]);
    assert p[n..][1..] == p[n + 1..];
  }

  /** The first entry below an array has index "0". */
  lemma ArrayOpens(j: Json, i: nat, n: nat)
    requires Sized(j) && i < |EntryKeys(j)| && n < |PathOf(j, i)|
    requires At(j, PathOf(j, i)[..n]).Ok? && At(j, PathOf(j, i)[..n]).value.Array?
    requires NoneBelow(Seen(EntryKeys(j), i), PathOf(j, i)[..n])
    ensures PathOf(j, i)[n] == "0"
  {
    hide EntryKeys, FlatMap, PathOf, Seen, Parsed, ToText, Less, At, Sized, IndexText, LeafPath, IsLeaf, Escaped;
    var p := PathOf(j, i);
    var q, t, r := p[..n], p[n], p[n + 1..];
    var a := At(j, q).value;
    SplitLeafPath(j, p, n);
    SizedAt(j, q);
    var k: nat :| k < |a.items| && t == IndexText(k);
    IndexZero();
    if k > 0 {
      var r0 := HasLeaf(a.items[0]);
      IndexIsChild(a, 0);
      LeafThrough(j, q, "0", r0);
      ZeroIndexFirst(q, k, r0, r);
      SmallerIsSeen(j, i, q + ["0"] + r0);
    }
  }

  /** The first entry below an object lies below its key "0" exactly when `ZeroFirst` says so. */
  lemma ObjectOpens(j: Json, i: nat, n: nat)
    requires Sized(j) && i < |EntryKeys(j)| && n < |PathOf(j, i)|
    requires At(j, PathOf(j, i)[..n]).Ok? && At(j, PathOf(j, i)[..n]).value.Object?
    requires NoneBelow(Seen(EntryKeys(j), i), PathOf(j, i)[..n])
    ensures PathOf(j, i)[n] == "0" <==> ZeroFirst(At(j, PathOf(j, i)[..n]).value.members)
  {
    hide EntryKeys, FlatMap, PathOf, Seen, Parsed, ToText, Less, At, Sized, IndexText, LeafPath, IsLeaf, Escaped;
    var p := PathOf(j, i);
    var q, t, r := p[..n], p[n], p[n + 1..];
    var o := At(j, q).value;
    SplitLeafPath(j, p, n);
    SizedAt(j, q);
    if t == "0" && !ZeroFirst(o.members) {
      var k :| k in o.members.Keys && k != "0" && !AfterZero(k, IsLeaf(o.members["0"]));
      var rk := HasLeaf(o.members[k]);
      LeafThrough(j, q, k, rk);
      LeafPathEmpty(o.members[t], r);
      ZeroKeyOrder(q, k, r, rk);
      SmallerIsSeen(j, i, q + [k] + rk);
      assert false;
    }
    if t != "0" && ZeroFirst(o.members) {
      var r0 := HasLeaf(o.members["0"]);
      LeafThrough(j, q, "0", r0);
      ZeroKeyOrder(q, t, r0, r);
      SmallerIsSeen(j, i, q + ["0"] + r0);
      assert false;
    }
  }

  lemma LeafPathEmpty(j: Json, r: Path)
    requires LeafPath(j, r)
    ensures r == [] <==> IsLeaf(j)
  {
  }

  lemma {:induction false} NoZeroFirstAt(j: Json, q: Path)
    requires NoZeroFirst(j) && At(j, q).Ok?
    ensures NoZeroFirst(At(j, q).value)
    decreases |q|
  {
    if q != [] { NoZeroFirstAt(Child(j, q[0]).value, q[1..]); }
  }

  /** Without such an object every entry can be added where it belongs. */
  lemma AlwaysOpens(j: Json, i: nat)
    requires Sized(j) && NoZeroFirst(j) && i < |EntryKeys(j)|
    ensures Opens(j, Seen(EntryKeys(j), i), PathOf(j, i))
  {
    hide EntryKeys, FlatMap, IndexText, Seen, Opens, Escaped;
    var p, s := PathOf(j, i), Seen(EntryKeys(j), i);
    OpensLevels(j, s, p);
    forall n | 0 <= n < |p| ensures OpensAt(j, s, p, n) {
      var q := p[..n];
      var x := At(j, q).value;
      if NoneBelow(s, q) {
        PrefixResolves(j, p, n);
        assert x.IsStructured();
        if x.Array? {
          ArrayOpens(j, i, n);
        } else {
          NoZeroFirstAt(j, q);
          ObjectOpens(j, i, n);
        }
      }
    }
  }

  lemma {:induction false} NoDiscardedAt(j: Json, q: Path)
    requires NoDiscarded(j) && At(j, q).Ok?
    ensures NoDiscarded(At(j, q).value)
    decreases |q|
  {
    if q != [] { NoDiscardedAt(Child(j, q[0]).value, q[1..]); }
  }

  lemma LeafOutIsPrimitive(j: Json)
    requires NoDiscarded(j)
    ensures LeafOut(j).IsPrimitive()
  {
  }

  /** The value after the first `n` entries of the flattened `j`. */
  function AfterEntries(j: Json, n: nat): Result<Json>
    requires n <= |EntryKeys(j)|
  {
    Rebuilt(FlatMap("", j), EntryKeys(j), n)
  }

  /** As long as every entry can be added where it belongs, what has been rebuilt is `j`
      with only the visited leaves. */
  lemma {:induction false} RebuiltIsPartial(j: Json, n: nat)
    requires Sized(j) && NoDiscarded(j) && n <= |EntryKeys(j)|
    requires forall i | 0 <= i < n :: Opens(j, Seen(EntryKeys(j), i), PathOf(j, i))
    ensures AfterEntries(j, n) == Ok(Partial(j, Seen(EntryKeys(j), n)))
  {
    hide EntryKeys, FlatMap, Parsed, ToText, Less, At, Sized, IndexText, IsLeaf, Escaped, Partial, Opens, CreateAt;
    if n == 0 {
      PartialNone(j);
      assert Seen(EntryKeys(j), 0) == {};
    } else {
      RebuiltIsPartial(j, n - 1);
      var i, keys := n - 1, EntryKeys(j);
      var p, s := PathOf(j, i), Seen(keys, i);
      EntryKeysParse(j, i);
      NoDiscardedAt(j, p);
      LeafOutIsPrimitive(At(j, p).value);
      SeenAreLeafPaths(j, i);
      CreateStep(j, s, p);
      SeenGrows(j, i);
    }
  }

  /** With all its leaves, a value is rebuilt completely. */
  lemma {:induction false} PartialOfAll(j: Json, s: set<Path>)
    requires Sized(j) && forall p: Path :: p in s <==> LeafPath(j, p)
    ensures Partial(j, s) == Nullified(j)
  {
    var some := HasLeaf(j);
    assert some in s;
    if IsLeaf(j) {
    } else if j.Array? {
      var a := j.items;
      PartialArray(j, s);
      forall i: nat | i < |a|
        ensures Below(s, IndexText(i)) != {} && Partial(a[i], Below(s, IndexText(i))) == Nullified(a[i])
      {
        IndexIsChild(j, i);
        BelowAll(j, s, IndexText(i));
        var r := HasLeaf(a[i]);
        assert r in Below(s, IndexText(i));
        PartialOfAll(a[i], Below(s, IndexText(i)));
      }
      assert Extent(s, |a|) == |a|;
      assert Partial(j, s).items == Nullified(j).items;
    } else {
      var m := j.members;
      PartialObject(j, s);
      forall k | k in m.Keys ensures Below(s, k) != {} && Partial(m[k], Below(s, k)) == Nullified(m[k]) {
        BelowAll(j, s, k);
        var r := HasLeaf(m[k]);
        assert r in Below(s, k);
        PartialOfAll(m[k], Below(s, k));
      }
      assert Partial(j, s).members == Nullified(j).members;
    }
  }

  lemma BelowAll(j: Json, s: set<Path>, t: string)
    requires Sized(j) && (forall p: Path :: p in s <==> LeafPath(j, p)) && ChildToken(j, t) && Child(j, t).Ok?
    ensures forall r: Path :: r in Below(s, t) <==> LeafPath(Child(j, t).value, r)
  {
    forall r: Path ensures r in Below(s, t) <==> LeafPath(Child(j, t).value, r) {
      if r in Below(s, t) {
        LeafPathsBelow(j, s, t);
      }
      if LeafPath(Child(j, t).value, r) {
        LeafPathBelow(j, t, r);
        assert [t] + r in s && ([t] + r)[1..] == r;
      }
    }
  }

  /** A value in which no object is entered at its key "0", and which holds no discarded
      value, comes back. */
  lemma ComesBack(j: Json)
    requires Sized(j) && NoDiscarded(j) && NoZeroFirst(j)
    ensures Unflattened(Object(FlatMap("", j))) == Ok(Nullified(j))
  {
    var n := |EntryKeys(j)|;
    forall i | 0 <= i < n ensures Opens(j, Seen(EntryKeys(j), i), PathOf(j, i)) { AlwaysOpens(j, i); }
    RebuiltIsPartial(j, n);
    AllSeen(j);
    PartialOfAll(j, Seen(EntryKeys(j), n));
  }

  // ----- wrong guesses ------------------------------------------------------------

  /** Below `q` the value has an array where `j` has a non-empty object, or the other way round. */
  predicate WrongKind(j: Json, x: Json, q: Path) {
    && At(j, q).Ok? && At(j, q).value.IsStructured() && !IsLeaf(At(j, q).value)
    && At(x, q).Ok? && At(x, q).value.IsStructured()
    && (At(j, q).value.Array? <==> !At(x, q).value.Array?)
  }

  /** A path that does not open leaves a wrong kind of value behind, or is refused. */
  lemma {:induction false} WrongGuess(j: Json, s: set<Path>, p: Path, v: Json) returns (q: Path)
    requires Sized(j) && LeafPaths(j, s) && LeafPath(j, p) && !Opens(j, s, p)
    ensures At(j, q).Ok? && At(j, q).value.IsStructured() && !IsLeaf(At(j, q).value)
    ensures var r := CreateAt(Partial(j, s), p, v); r.Throws? || WrongKind(j, r.value, q)
    decreases |p|
  {
    var t, rest := p[0], p[1..];
    ChildTokens(j, t);
    if s == {} && !(j.Array? <==> t == "0") {
      q := [];
    } else {
      LeafPathsBelow(j, s, t);
      var c := Child(j, t).value;
      var r := WrongGuess(c, Below(s, t), rest, v);
      q := [t] + r;
      assert q[1..] == r;
      var made := CreateAt(Partial(c, Below(s, t)), rest, v);
      CreateBelow(j, s, p, v);
      if made.Ok? {
        assert WrongKind(c, made.value, r);
        var whole := CreateAt(Partial(j, s), p, v).value;
        assert At(whole, q) == At(made.value, r);
      }
    }
  }

  /** `get_and_create` goes through what has been rebuilt of the child. */
  lemma {:induction false} CreateBelow(j: Json, s: set<Path>, p: Path, v: Json)
    requires Sized(j) && LeafPaths(j, s) && LeafPath(j, p) && p != []
    requires Child(j, p[0]).Ok? && (s == {} ==> (j.Array? <==> p[0] == "0"))
    ensures var made := CreateAt(Partial(Child(j, p[0]).value, Below(s, p[0])), p[1..], v);
            var whole := CreateAt(Partial(j, s), p, v);
            if made.Throws? then whole == made else whole.Ok? && Child(whole.value, p[0]) == made
  {
    hide Partial, Below, Extent, IndexText, Sized, CreateAt, LeafPath, LeafPaths, Child;
    ChildTokens(j, p[0]);
    if j.Array? {
      CreateBelowItem(j, s, p, v);
    } else {
      CreateBelowMember(j, s, p, v);
    }
  }

  lemma CreateBelowItem(j: Json, s: set<Path>, p: Path, v: Json)
    requires Sized(j) && LeafPaths(j, s) && LeafPath(j, p) && p != [] && j.Array?
    requires ChildToken(j, p[0]) && Child(j, p[0]).Ok? && (s == {} ==> p[0] == "0")
    ensures var made := CreateAt(Partial(Child(j, p[0]).value, Below(s, p[0])), p[1..], v);
            var whole := CreateAt(Partial(j, s), p, v);
            if made.Throws? then whole == made else whole.Ok? && Child(whole.value, p[0]) == made
  {
    hide Partial, Below, Extent, IndexText, Sized, ArrayIndex, LeafPaths;
    var t := p[0];
    var i: nat :| i < |j.items| && t == IndexText(i);
    IndexIsChild(j, i);
    ArrayIndexOfTextSized(j, i);
    var c := j.items[i];
    PartialNone(c);
    assert !IsLeaf(j);
    if s == {} {
      PartialNone(j);
      NothingBelow(t);
      IndexZero();
      IndexTextInjective(i, 0);
    } else {
      PartialArray(j, s);
      assert Filled(Partial(j, s).items, i)[i] == Partial(c, Below(s, t));
    }
  }

  lemma CreateBelowMember(j: Json, s: set<Path>, p: Path, v: Json)
    requires Sized(j) && LeafPaths(j, s) && LeafPath(j, p) && p != [] && !j.Array?
    requires ChildToken(j, p[0]) && Child(j, p[0]).Ok? && (s == {} ==> p[0] != "0")
    ensures var made := CreateAt(Partial(Child(j, p[0]).value, Below(s, p[0])), p[1..], v);
            var whole := CreateAt(Partial(j, s), p, v);
            if made.Throws? then whole == made else whole.Ok? && Child(whole.value, p[0]) == made
  {
    hide Partial, Below, Extent, IndexText, Sized, ArrayIndex, LeafPaths;
    var t := p[0];
    PartialNone(j);
    PartialNone(Child(j, t).value);
    NothingBelow(t);
    assert !IsLeaf(j);
    if s != {} { PartialObject(j, s); }
  }

  lemma PrefixTails(p: Path, q: Path)
    requires p != [] && q != [] && p[0] == q[0]
    ensures p <= q <==> p[1..] <= q[1..]
  {
    assert p == [p[0]] + p[1..] && q == [q[0]] + q[1..];
  }

  /** An array or object stays one while entries below it, or elsewhere, are added. */
  lemma {:induction false} KindStays(x: Json, p: Path, v: Json, q: Path)
    requires At(x, q).Ok? && At(x, q).value.IsStructured() && !(p <= q)
    requires CreateAt(x, p, v).Ok?
    ensures var y := CreateAt(x, p, v).value;
            At(y, q).Ok? && At(y, q).value.IsStructured() && (At(y, q).value.Array? <==> At(x, q).value.Array?)
    decreases |q|
  {
    if q != [] {
      var t, u := p[0], q[0];
      if t == u {
        PrefixTails(p, q);
        if x.Array? {
          var a, i := x.items, ArrayIndex(t).value;
          assert Filled(a, i) == a;
        }
        KindStays(Child(x, u).value, p[1..], v, q[1..]);
      } else if x.Array? {
        var i, k := ArrayIndex(t).value, ArrayIndex(u).value;
        if i == k {
          ArrayIndexIsCanonical(t);
          ArrayIndexIsCanonical(u);
        }
        assert Child(CreateAt(x, p, v).value, u) == Child(x, u);
      }
    }
  }

  /** A leaf path does not run along the way to a value that is not a leaf. */
  lemma LeafIsNotOnTheWay(j: Json, p: Path, q: Path)
    requires LeafPath(j, p) && At(j, q).Ok? && At(j, q).value.IsStructured() && !IsLeaf(At(j, q).value)
    ensures !(p <= q)
  {
    if p <= q {
      assert q == p + q[|p|..];
      AtConcat(j, p, q[|p|..]);
      LeafHasNoChild(At(j, p).value, q[|p|..]);
    }
  }

  lemma LeafHasNoChild(j: Json, q: Path)
    requires IsLeaf(j) && At(j, q).Ok?
    ensures q == []
  {
  }

  /** A wrong kind of value is never repaired. */
  lemma {:induction false} WrongKindStays(j: Json, q: Path, m: nat, n: nat)
    requires Sized(j) && m <= n <= |EntryKeys(j)|
    requires AfterEntries(j, m).Throws? || WrongKind(j, AfterEntries(j, m).value, q)
    ensures AfterEntries(j, n).Throws? || WrongKind(j, AfterEntries(j, n).value, q)
    decreases n
  {
    hide FlatMap, LeafOut, CreateAt, Parsed, At, EntryKeys, IsLeaf;
    if m < n {
      WrongKindStays(j, q, m, n - 1);
      var i := n - 1;
      EntryKeysParse(j, i);
      if AfterEntries(j, n).Ok? {
        var p := PathOf(j, i);
        LeafIsNotOnTheWay(j, p, q);
        KindStays(AfterEntries(j, i).value, p, FlatMap("", j)[EntryKeys(j)[i]], q);
      }
    }
  }

  lemma {:induction false} NullifiedKind(j: Json, q: Path)
    requires At(j, q).Ok? && At(j, q).value.IsStructured() && !IsLeaf(At(j, q).value)
    ensures At(Nullified(j), q) == Ok(Nullified(At(j, q).value))
    decreases |q|
  {
    if q != [] {
      NullifiedKind(Child(j, q[0]).value, q[1..]);
    }
  }

  lemma NullifiedIsNotWrong(j: Json, q: Path)
    ensures !WrongKind(j, Nullified(j), q)
  {
    if WrongKind(j, Nullified(j), q) {
      NullifiedKind(j, q);
    }
  }

  lemma {:induction false} FindZeroFirst(j: Json) returns (q: Path)
    requires Sized(j) && !NoZeroFirst(j)
    ensures At(j, q).Ok? && At(j, q).value.Object? && ZeroFirst(At(j, q).value.members)
  {
    match j
    case Array(a) =>
      var i :| 0 <= i < |a| && !NoZeroFirst(a[i]);
      var r := FindZeroFirst(a[i]);
      IndexIsChild(j, i);
      q := [IndexText(i)] + r;
      assert q[1..] == r;
    case Object(m) =>
      if ZeroFirst(m) {
        q := [];
      } else {
        var k :| k in m.Keys && !NoZeroFirst(m[k]);
        var r := FindZeroFirst(m[k]);
        q := [k] + r;
        assert q[1..] == r;
      }
  }

  /** The first entry below `q`. */
  lemma {:induction false} FirstEntryBelow(j: Json, q: Path, p: Path) returns (i: nat)
    requires Sized(j) && LeafPath(j, p) && q <= p
    ensures i < |EntryKeys(j)| && q <= PathOf(j, i) && NoneBelow(Seen(EntryKeys(j), i), q)
  {
    hide LeafPath, EntryKeys, FlatMap, Seen, PathOf;
    var l := Position(j, p);
    i := 0;
    NothingSeen(j);
    while !(q <= PathOf(j, i))
      invariant i <= l && NoneBelow(Seen(EntryKeys(j), i), q)
      decreases l - i
    {
      SeenGrows(j, i);
      i := i + 1;
    }
  }

  lemma NothingSeen(j: Json)
    ensures Seen(EntryKeys(j), 0) == {}
  {
  }

  /** Where a leaf is visited. */
  lemma Position(j: Json, p: Path) returns (l: nat)
    requires Sized(j) && LeafPath(j, p)
    ensures l < |EntryKeys(j)| && PathOf(j, l) == p
  {
    hide LeafPath, FlatMap, EntryKeys;
    AllSeen(j);
    var keys := EntryKeys(j);
    assert p in Seen(keys, |keys|);
    l :| 0 <= l < |keys| && Parsed(keys[l]).Ok? && Parsed(keys[l]).value == p;
  }

  /** An object entered at its key "0" makes some entry fail to open. */
  lemma SomeEntryDoesNotOpen(j: Json) returns (i: nat)
    requires Sized(j) && !NoZeroFirst(j)
    ensures i < |EntryKeys(j)| && !Opens(j, Seen(EntryKeys(j), i), PathOf(j, i))
  {
    hide Opens, PathOf, EntryKeys, Seen;
    var q := FindZeroFirst(j);
    var o := At(j, q).value;
    SizedAt(j, q);
    var r := HasLeaf(o.members["0"]);
    LeafThrough(j, q, "0", r);
    i := FirstEntryBelow(j, q, q + ["0"] + r);
    var p := PathOf(j, i);
    LeafIsNotOnTheWay(j, p, q);
    assert p[..|q|] == q && |q| < |p|;
    ObjectOpens(j, i, |q|);
    OpensLevels(j, Seen(EntryKeys(j), i), p);
    assert !OpensAt(j, Seen(EntryKeys(j), i), p, |q|);
  }

  /** The first entry that does not open leaves something wrong behind for good. */
  lemma {:induction false} WrongForGood(j: Json, i: nat)
    requires Sized(j) && NoDiscarded(j) && i < |EntryKeys(j)|
    requires forall k | 0 <= k < i :: Opens(j, Seen(EntryKeys(j), k), PathOf(j, k))
    requires !Opens(j, Seen(EntryKeys(j), i), PathOf(j, i))
    ensures AfterEntries(j, |EntryKeys(j)|) != Ok(Nullified(j))
  {
    hide Opens, FlatMap, CreateAt, Nullified, Partial, EntryKeys, Seen, LeafPath, LeafPaths, WrongKind, Parsed;
    RebuiltIsPartial(j, i);
    SeenAreLeafPaths(j, i);
    EntryKeysParse(j, i);
    var v := FlatMap("", j)[EntryKeys(j)[i]];
    var q := WrongGuess(j, Seen(EntryKeys(j), i), PathOf(j, i), v);
    WrongKindStays(j, q, i + 1, |EntryKeys(j)|);
    NullifiedIsNotWrong(j, q);
  }

  /** Then the value does not come back. */
  lemma DoesNotComeBack(j: Json)
    requires Sized(j) && NoDiscarded(j) && !NoZeroFirst(j)
    ensures Unflattened(Object(FlatMap("", j))) != Ok(Nullified(j))
  {
    hide Opens, FlatMap, CreateAt, Nullified, EntryKeys, NoZeroFirst, LeafPath, Seen, Unflattened, Rebuilt;
    var wrong := SomeEntryDoesNotOpen(j);
    var i := 0;
    while Opens(j, Seen(EntryKeys(j), i), PathOf(j, i))
      invariant i <= wrong
      invariant forall k | 0 <= k < i :: Opens(j, Seen(EntryKeys(j), k), PathOf(j, k))
      decreases wrong - i
    {
      i := i + 1;
    }
    WrongForGood(j, i);
    UnflattenedIsAfterEntries(j);
  }

  lemma UnflattenedIsAfterEntries(j: Json)
    ensures Unflattened(Object(FlatMap("", j))) == AfterEntries(j, |EntryKeys(j)|)
  {
  }

  lemma {:induction false} FindDiscarded(j: Json) returns (p: Path)
    requires Sized(j) && !NoDiscarded(j)
    ensures LeafPath(j, p) && At(j, p).value.Discarded?
  {
    match j
    case Array(a) =>
      var i :| 0 <= i < |a| && !NoDiscarded(a[i]);
      var r := FindDiscarded(a[i]);
      IndexIsChild(j, i);
      LeafPathBelow(j, IndexText(i), r);
      p := [IndexText(i)] + r;
    case Object(m) =>
      var k :| k in m.Keys && !NoDiscarded(m[k]);
      var r := FindDiscarded(m[k]);
      LeafPathBelow(j, k, r);
      p := [k] + r;
    case _ =>
      p := [];
  }

  /** A discarded value is refused by `unflatten`. */
  lemma DiscardedIsRefused(j: Json)
    requires Sized(j) && !NoDiscarded(j)
    ensures Unflattened(Object(FlatMap("", j))).Throws?
  {
    hide LeafPath, FlatMap, EntryKeys, Seen, Rebuilt, Parsed, Less, SortedKeys, IndexText;
    var keys := EntryKeys(j);
    var p := FindDiscarded(j);
    var i := FirstEntryBelow(j, p, p);
    var q := PathOf(j, i);
    LeafBehindLeaf(j, p, q);
    EntryKeysParse(j, i);
    DiscardedEntry(FlatMap("", j), keys, i);
    RebuiltStops(FlatMap("", j), keys, i + 1, |keys|);
    UnflattenedIsAfterEntries(j);
  }

  lemma DiscardedEntry(m: map<string, Json>, keys: seq<string>, i: nat)
    requires i < |keys| && (forall k | k in keys :: k in m) && m[keys[i]] == Discarded
    ensures Rebuilt(m, keys, i + 1).Throws?
  {
  }

  lemma LeafBehindLeaf(j: Json, p: Path, q: Path)
    requires LeafPath(j, p) && LeafPath(j, q) && p <= q
    ensures p == q
  {
    assert q == p + q[|p|..];
    AtConcat(j, p, q[|p|..]);
    LeafHasNoChild(At(j, p).value, q[|p|..]);
  }

  // ----- the law --------------------------------------------------------------------

  /** A value comes back from `flatten` and `unflatten`, with its empty arrays and objects
      turned into null, exactly when no object inside is entered at its key "0" and no
      discarded value is inside. */
  lemma FlattenThenUnflatten(j: Json)
    requires Sized(j)
    ensures Unflattened(Object(FlatMap("", j))) == Ok(Nullified(j)) <==> NoZeroFirst(j) && NoDiscarded(j)
  {
    if !NoDiscarded(j) {
      DiscardedIsRefused(j);
    } else if NoZeroFirst(j) {
      ComesBack(j);
    } else {
      DoesNotComeBack(j);
    }
  }

  /** In particular, values without the key "0" come back. */
  lemma FlattenThenUnflattenNoZero(j: Json)
    requires Sized(j) && NoZeroKey(j) && NoDiscarded(j)
    ensures Unflattened(Object(FlatMap("", j))) == Ok(Nullified(j))
  {
    NoZeroKeySuffices(j);
    FlattenThenUnflatten(j);
  }

  /** The law for the library's two functions run one after the other. */
  method FlattenAndBack(value: Json) returns (back: Result<Json>)
    requires Sized(value)
    ensures back == Ok(Nullified(value)) <==> NoZeroFirst(value) && NoDiscarded(value)
  {
    hide Unflattened, FlatMap, NoZeroFirst, NoDiscarded, Nullified;
    var flat := FlattenValue(value);
    FlattenThenUnflatten(value);
    back := Unflatten(flat);
  }

  /** As with {"0":null}, which comes back as [null]. */
  lemma ZeroKeyIsLost()
    ensures var j := Object(map["0" := Null]);
            && !NoZeroFirst(j)
            && Unflattened(Object(FlatMap("", j))) != Ok(Nullified(j))
            && Unflattened(Object(FlatMap("", j))) == Ok(Array([Null]))
  {
    var j := Object(map["0" := Null]);
    assert !NoZeroFirst(j);
    DoesNotComeBack(j);
    OneEntry();
    FlatOfZero();
  }

  lemma FlatOfZero()
    ensures FlatMap("", Object(map["0" := Null])) == map["/0" := Null]
  {
    hide Escaped, SortedKeys;
    var j := Object(map["0" := Null]);
    KeysOfOne("0");
    assert j.members.Keys == {"0"};
    ZeroText();
    assert FlatMap("/0", Null) == map["/0" := Null];
    assert "" + "/" + "0" == "/0";
    assert FlatMembers("", j, ["0"], 0) == map[];
    assert FlatMembers("", j, ["0"], 1) == map["/0" := Null];
  }

  lemma OneEntry()
    ensures Unflattened(Object(map["/0" := Null])) == Ok(Array([Null]))
  {
    hide PutEntry, SortedKeys;
    var m := map["/0" := Null];
    KeysOfOne("/0");
    assert m.Keys == {"/0"};
    PutZero();
    assert Rebuilt(m, ["/0"], 0) == Ok(Null);
  }

  lemma PutZero()
    ensures PutEntry(Null, "/0", Null) == Ok(Array([Null]))
  {
    hide Parsed, ToText, Escaped;
    TextOfZero();
    ParsePrint(["0"]);
    assert ["0"][1..] == [];
    assert CreateAt(Null, [], Null) == Ok(Null);
  }

  lemma TextOfZero()
    ensures ToText(["0"]) == "/0"
  {
    hide Escaped;
    ToTextAppend([], "0");
    DigitsAreNotEscaped("0");
    assert [] + ["0"] == ["0"];
  }

  lemma KeysOfOne(k: string)
    ensures SortedKeys({k}) == [k]
  {
    hide Less;
    Irreflexive(k);
    assert k in SortedKeys({k});
    OnlyOne(SortedKeys({k}), k);
  }

  lemma OnlyOne(s: seq<string>, k: string)
    requires Sorted(s) && forall x | x in s :: x == k
    ensures |s| <= 1
  {
    assert forall i | 0 <= i < |s| :: s[i] in s;
    FirstTwoDiffer(s);
  }

  lemma FirstTwoDiffer(s: seq<string>)
    requires Sorted(s)
    ensures |s| > 1 ==> s[0] != s[1]
  {
    hide Less;
    if |s| > 1 { Irreflexive(s[0]); }
  }
}
