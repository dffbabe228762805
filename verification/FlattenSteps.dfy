/**
 The entries `flatten` writes, and what `get_and_create` builds from some of them.
 */
module FlattenSteps {
  import opened JsonValue
  import opened JsonPointer
  import opened Digits
  import opened StringEscape
  import opened TextOrder
  import opened Flatten

  /** The value with every empty array or object replaced by null. */
  function Nullified(j: Json): Json {
    match j
    case Array(a) => if a == [] then Null else Array(seq(|a|, i requires 0 <= i < |a| => Nullified(a[i])))
    case Object(m) => if m == map[] then Null else Object(map k | k in m :: Nullified(m[k]))
    case _ => j
  }

  /** The path leads to a leaf. */
  predicate LeafPath(j: Json, p: Path) {
    At(j, p).Ok? && IsLeaf(At(j, p).value)
  }

  // ----- the entries of the flat object ---------------------------------------

  /** The tokens of the children: index texts of an array, keys of an object. */
  predicate ChildToken(j: Json, t: string) {
    match j
    case Array(a) => exists i: nat :: i < |a| && t == IndexText(i)
    case Object(m) => t in m
    case _ => false
  }

  lemma IndexIsChild(j: Json, i: nat)
    requires j.Array? && i < |j.items| && Sized(j)
    ensures ChildToken(j, IndexText(i)) && Child(j, IndexText(i)) == Ok(j.items[i])
  {
    ArrayIndexOfText(i);
    assert IsDigit(IndexText(i)[0]);
  }

  lemma ChildTokens(j: Json, t: string)
    requires Sized(j)
    ensures Child(j, t).Ok? <==> ChildToken(j, t)
  {
    if j.Array? {
      if Child(j, t).Ok? {
        ArrayIndexIsCanonical(t);
      }
      if ChildToken(j, t) {
        var i: nat :| i < |j.items| && t == IndexText(i);
        IndexIsChild(j, i);
      }
    }
  }

  lemma LeafPathBelow(j: Json, t: string, p: Path)
    requires Sized(j) && ChildToken(j, t) && Child(j, t).Ok? && LeafPath(Child(j, t).value, p)
    ensures LeafPath(j, [t] + p) && At(j, [t] + p) == At(Child(j, t).value, p)
  {
    ChildTokens(j, t);
    assert ([t] + p)[1..] == p;
  }

  /** Every entry stands for a leaf: its key is the printed path, its value what `flatten`
      writes for the leaf. */
  lemma {:induction false} EntryHasLeaf(q: Path, j: Json, key: string) returns (p: Path)
    requires Sized(j) && key in FlatMap(ToText(q), j)
    ensures LeafPath(j, p) && key == ToText(q + p)
    ensures FlatMap(ToText(q), j)[key] == LeafOut(At(j, p).value)
    decreases j, 1, 0
  {
    if IsLeaf(j) {
      p := [];
      assert q + p == q;
    } else if j.Array? {
      p := ItemEntryHasLeaf(q, j, |j.items|, key);
    } else {
      var keys := SortedKeys(j.members.Keys);
      p := MemberEntryHasLeaf(q, j, keys, |keys|, key);
    }
  }

  lemma {:induction false} ItemEntryHasLeaf(q: Path, j: Json, n: nat, key: string) returns (p: Path)
    requires Sized(j) && j.Array? && n <= |j.items| && key in FlatItems(ToText(q), j, n)
    ensures LeafPath(j, p) && key == ToText(q + p)
    ensures FlatItems(ToText(q), j, n)[key] == LeafOut(At(j, p).value)
    decreases j, 0, n
  {
    hide FlatMap, ToText, At, LeafPath, IndexText, Escaped, IsLeaf;
    var t := IndexText(n - 1);
    IndexPath(q, n - 1);
    IndexIsChild(j, n - 1);
    if key in FlatMap(ToText(q + [t]), j.items[n - 1]) {
      var r := EntryHasLeaf(q + [t], j.items[n - 1], key);
      LeafPathBelow(j, t, r);
      p := [t] + r;
      assert q + [t] + r == q + p;
    } else {
      p := ItemEntryHasLeaf(q, j, n - 1, key);
    }
  }

  lemma {:induction false} MemberEntryHasLeaf(q: Path, j: Json, keys: seq<string>, n: nat, key: string)
    returns (p: Path)
    requires Sized(j) && j.Object? && n <= |keys| && forall k | k in keys :: k in j.members
    requires key in FlatMembers(ToText(q), j, keys, n)
    ensures LeafPath(j, p) && key == ToText(q + p)
    ensures FlatMembers(ToText(q), j, keys, n)[key] == LeafOut(At(j, p).value)
    decreases j, 0, n
  {
    hide FlatMap, ToText, At, LeafPath, IndexText, Escaped, IsLeaf;
    var t := keys[n - 1];
    KeyPath(q, t);
    assert t in keys && ChildToken(j, t);
    if key in FlatMap(ToText(q + [t]), j.members[t]) {
      var r := EntryHasLeaf(q + [t], j.members[t], key);
      LeafPathBelow(j, t, r);
      p := [t] + r;
      assert q + [t] + r == q + p;
    } else {
      p := MemberEntryHasLeaf(q, j, keys, n - 1, key);
    }
  }

  /** Every leaf has an entry. */
  lemma {:induction false} LeafHasEntry(q: Path, j: Json, p: Path)
    requires Sized(j) && LeafPath(j, p)
    ensures ToText(q + p) in FlatMap(ToText(q), j)
    decreases j, 1, 0
  {
    hide ToText;
    if p == [] {
      assert q + p == q;
    } else if j.Array? {
      LeafHasItemEntry(q, j, p);
    } else {
      LeafHasMemberEntry(q, j, p);
    }
  }

  lemma {:induction false} LeafHasItemEntry(q: Path, j: Json, p: Path)
    requires Sized(j) && LeafPath(j, p) && p != [] && j.Array?
    ensures ToText(q + p) in FlatMap(ToText(q), j)
    decreases j, 0, 0
  {
    hide ToText, IndexText, FlatItems;
    var t, r := p[0], p[1..];
    ChildTokens(j, t);
    assert q + p == q + [t] + r;
    var i: nat :| i < |j.items| && t == IndexText(i);
    IndexIsChild(j, i);
    LeafHasEntry(q + [t], j.items[i], r);
    IndexPath(q, i);
    ItemEntryKept(ToText(q), j, i, |j.items|, ToText(q + p));
  }

  lemma {:induction false} LeafHasMemberEntry(q: Path, j: Json, p: Path)
    requires Sized(j) && LeafPath(j, p) && p != [] && j.Object?
    ensures ToText(q + p) in FlatMap(ToText(q), j)
    decreases j, 0, 0
  {
    hide ToText, Escaped, FlatMembers, SortedKeys;
    var t, r := p[0], p[1..];
    ChildTokens(j, t);
    assert q + p == q + [t] + r;
    LeafHasEntry(q + [t], j.members[t], r);
    KeyPath(q, t);
    var keys := SortedKeys(j.members.Keys);
    assert t in keys;
    var i :| 0 <= i < |keys| && keys[i] == t;
    MemberEntryKept(ToText(q), j, keys, i, |keys|, ToText(q + p));
  }

  lemma {:induction false} ItemEntryKept(path: string, j: Json, i: nat, n: nat, key: string)
    requires j.Array? && i < n <= |j.items|
    requires key in FlatMap(path + "/" + IndexText(i), j.items[i])
    ensures key in FlatItems(path, j, n)
    decreases n
  {
    if i < n - 1 { ItemEntryKept(path, j, i, n - 1, key); }
  }

  lemma {:induction false} MemberEntryKept(path: string, j: Json, keys: seq<string>, i: nat, n: nat, key: string)
    requires j.Object? && i < n <= |keys| && forall k | k in keys :: k in j.members
    requires key in FlatMap(path + "/" + Escaped(keys[i]), j.members[keys[i]])
    ensures key in FlatMembers(path, j, keys, n)
    decreases n
  {
    if i < n - 1 { MemberEntryKept(path, j, keys, i, n - 1, key); }
  }

  /** Everything inside a value that is no array or object, or an empty one, has its entry in the
      flat object; an empty array or object is entered as null. */
  lemma LeafEntry(j: Json, p: Path)
    requires Sized(j) && At(j, p).Ok?
    requires !At(j, p).value.IsStructured() || At(j, p).value == Array([]) || At(j, p).value == Object(map[])
    ensures ToText(p) in FlatMap("", j)
    ensures FlatMap("", j)[ToText(p)] == if At(j, p).value.IsStructured() then Null else At(j, p).value
  {
    hide FlatMap;
    EntryOfLeaf(j, p);
  }

  lemma EntryOfLeaf(j: Json, p: Path)
    requires Sized(j) && LeafPath(j, p)
    ensures ToText(p) in FlatMap("", j) && FlatMap("", j)[ToText(p)] == LeafOut(At(j, p).value)
  {
    LeafHasEntry([], j, p);
    assert [] + p == p;
    var r := EntryHasLeaf([], j, ToText(p));
    assert [] + r == r;
    ParsePrint(p);
    ParsePrint(r);
  }

  /** And the flat object has no other entries. */
  lemma EntryLeaf(j: Json, key: string)
    requires Sized(j) && key in FlatMap("", j)
    ensures Parsed(key).Ok? && LeafPath(j, Parsed(key).value) && ToText(Parsed(key).value) == key
    ensures var v := At(j, Parsed(key).value).value;
            && (!v.IsStructured() || v == Array([]) || v == Object(map[]))
            && FlatMap("", j)[key] == if v.IsStructured() then Null else v
  {
    var r := EntryHasLeaf([], j, key);
    assert [] + r == r;
    ParsePrint(r);
  }

  // ----- what has been rebuilt so far -------------------------------------------

  /** The paths of `s` that begin with the token, without it. */
  function Below(s: set<Path>, t: string): set<Path> {
    set p | p in s && p != [] && p[0] == t :: p[1..]
  }

  lemma BelowAdd(s: set<Path>, p: Path, t: string)
    requires p != []
    ensures Below(s + {p}, t) == if p[0] == t then Below(s, t) + {p[1..]} else Below(s, t)
  {
    forall r ensures r in Below(s + {p}, t) <==> r in (if p[0] == t then Below(s, t) + {p[1..]} else Below(s, t)) {
      if r in Below(s + {p}, t) {
        var o :| o in s + {p} && o != [] && o[0] == t && o[1..] == r;
        assert o in s ==> r in Below(s, t);
      }
      if r in Below(s, t) {
        var o :| o in s && o != [] && o[0] == t && o[1..] == r;
        assert o in s + {p};
      }
      if p[0] == t && r == p[1..] {
        assert p in s + {p};
      }
    }
  }

  /** One more than the largest index below `n` with a path in `s`; 0 if there is none. */
  function Extent(s: set<Path>, n: nat): (e: nat)
    ensures e <= n && (e > 0 ==> Below(s, IndexText(e - 1)) != {})
    ensures forall i: nat | e <= i < n :: Below(s, IndexText(i)) == {}
  {
    if n == 0 then 0 else if Below(s, IndexText(n - 1)) != {} then n else Extent(s, n - 1)
  }

  /** The value rebuilt from the leaves of `j` whose paths are in `s`. */
  function Partial(j: Json, s: set<Path>): Json {
    if s == {} then Null
    else if IsLeaf(j) then LeafOut(j)
    else match j
      case Array(a) =>
        Array(seq(Extent(s, |a|), i requires 0 <= i < Extent(s, |a|) => Partial(a[i], Below(s, IndexText(i)))))
      case Object(m) =>
        Object(map k | k in m && Below(s, k) != {} :: Partial(m[k], Below(s, k)))
  }

  /** The path can be added next without a wrong guess: where it is the first path into an
      array its token is "0", where it is the first path into an object its token is not "0". */
  predicate Opens(j: Json, s: set<Path>, p: Path)
    requires LeafPath(j, p)
    decreases |p|
  {
    p == [] ||
    ((s == {} ==> (j.Array? <==> p[0] == "0")) &&
     Opens(Child(j, p[0]).value, Below(s, p[0]), p[1..]))
  }

  predicate LeafPaths(j: Json, s: set<Path>) {
    forall p | p in s :: LeafPath(j, p)
  }

  lemma LeafPathsBelow(j: Json, s: set<Path>, t: string)
    requires LeafPaths(j, s) && Child(j, t).Ok?
    ensures LeafPaths(Child(j, t).value, Below(s, t))
  {
    forall r | r in Below(s, t) ensures LeafPath(Child(j, t).value, r) {
      var p :| p in s && p != [] && p[0] == t && p[1..] == r;
      assert LeafPath(j, p);
    }
  }

  lemma BelowIndex(s: set<Path>, p: Path, i: nat)
    requires p != [] && p[0] == IndexText(i)
    ensures Below(s + {p}, IndexText(i)) == Below(s, IndexText(i)) + {p[1..]}
    ensures forall k: nat | k != i :: Below(s + {p}, IndexText(k)) == Below(s, IndexText(k))
  {
    BelowAdd(s, p, IndexText(i));
    forall k: nat | k != i ensures Below(s + {p}, IndexText(k)) == Below(s, IndexText(k)) {
      BelowAdd(s, p, IndexText(k));
      if IndexText(k) == IndexText(i) { IndexTextInjective(k, i); }
    }
  }

  lemma {:induction false} ExtentIs(s: set<Path>, n: nat, e: nat)
    requires e <= n && (e > 0 ==> Below(s, IndexText(e - 1)) != {})
    requires forall i: nat | e <= i < n :: Below(s, IndexText(i)) == {}
    ensures Extent(s, n) == e
  {
    var x := Extent(s, n);
    assert x > 0 ==> Below(s, IndexText(x - 1)) != {};
  }

  lemma ExtentAdd(s: set<Path>, p: Path, i: nat, n: nat)
    requires p != [] && p[0] == IndexText(i) && i < n
    ensures Extent(s + {p}, n) == if Extent(s, n) > i then Extent(s, n) else i + 1
  {
    BelowIndex(s, p, i);
    var e := Extent(s, n);
    ExtentIs(s + {p}, n, if e > i then e else i + 1);
  }

  lemma {:induction false} SomethingBelow(j: Json, s: set<Path>)
    requires Sized(j) && j.Array? && !IsLeaf(j) && LeafPaths(j, s) && s != {}
    ensures Extent(s, |j.items|) > 0
  {
    var p :| p in s;
    assert LeafPath(j, p) && p != [];
    ChildTokens(j, p[0]);
    var i: nat :| i < |j.items| && p[0] == IndexText(i);
    assert p[1..] in Below(s, IndexText(i));
  }

  /** `get_and_create` at one level of an array. */
  lemma {:induction false} CreateInArray(j: Json, s: set<Path>, p: Path, i: nat, v: Json)
    requires Sized(j) && j.Array? && !IsLeaf(j) && LeafPaths(j, s)
    requires i < |j.items| && p != [] && p[0] == IndexText(i) && (s == {} ==> p[0] == "0")
    requires CreateAt(Partial(j.items[i], Below(s, p[0])), p[1..], v) ==
             Ok(Partial(j.items[i], Below(s, p[0]) + {p[1..]}))
    ensures CreateAt(Partial(j, s), p, v) == Ok(Partial(j, s + {p}))
  {
    hide IsLeaf, Sized, LeafPaths, IndexText, Partial, Below, Extent, ArrayIndex, CreateAt;
    ArrayIndexOfTextSized(j, i);
    if s == {} {
      CreateFirstItem(j, p, i, v);
    } else {
      SomethingBelow(j, s);
      CreateItem(j, s, p, i, v);
    }
  }

  /** The first leaf makes the array. */
  lemma CreateFirstItem(j: Json, p: Path, i: nat, v: Json)
    requires Sized(j) && j.Array? && !IsLeaf(j) && LeafPaths(j, {})
    requires i < |j.items| && p != [] && p[0] == IndexText(i) == "0"
    requires CreateAt(Partial(j.items[i], Below({}, p[0])), p[1..], v) ==
             Ok(Partial(j.items[i], Below({}, p[0]) + {p[1..]}))
    ensures CreateAt(Partial(j, {}), p, v) == Ok(Partial(j, {} + {p}))
  {
    hide IsLeaf, Sized, LeafPaths, IndexText, Partial, Below, Extent, ArrayIndex;
    var c, y := Partial(j.items[i], Below({}, p[0]) + {p[1..]}), Partial(j, {} + {p});
    IndexZero();
    IndexTextInjective(i, 0);
    BelowIndex({}, p, i);
    ExtentAdd({}, p, i, |j.items|);
    PartialArray(j, {} + {p});
    NothingBelow(p[0]);
    NoExtent(|j.items|);
    PartialNone(j);
    PartialNone(j.items[i]);
    assert y.items == [c];
  }

  /** Later ones exchange an item, behind nulls if need be. */
  lemma CreateItem(j: Json, s: set<Path>, p: Path, i: nat, v: Json)
    requires Sized(j) && j.Array? && !IsLeaf(j) && LeafPaths(j, s) && s != {}
    requires i < |j.items| && p != [] && p[0] == IndexText(i) && ArrayIndex(p[0]) == Ok(i)
    requires Extent(s, |j.items|) > 0
    requires CreateAt(Partial(j.items[i], Below(s, p[0])), p[1..], v) ==
             Ok(Partial(j.items[i], Below(s, p[0]) + {p[1..]}))
    ensures CreateAt(Partial(j, s), p, v) == Ok(Partial(j, s + {p}))
  {
    hide IsLeaf, Sized, LeafPaths, IndexText, Partial, Below, Extent, ArrayIndex;
    var a := j.items;
    var c, y := Partial(a[i], Below(s, p[0]) + {p[1..]}), Partial(j, s + {p});
    BelowIndex(s, p, i);
    ExtentAdd(s, p, i, |a|);
    PartialArray(j, s + {p});
    PartialArray(j, s);
    var x := Partial(j, s).items;
    PartialNone(a[i]);
    assert Filled(x, i)[i] == Partial(a[i], Below(s, p[0]));
    var z := Filled(x, i)[i := c];
    forall k | 0 <= k < |z| ensures z[k] == y.items[k] {
      PartialNone(a[k]);
      if k < |x| && k != i { assert z[k] == x[k]; }
    }
    assert z == y.items;
  }

  lemma PartialArray(j: Json, s: set<Path>)
    requires j.Array? && !IsLeaf(j) && s != {}
    ensures Partial(j, s).Array? && |Partial(j, s).items| == Extent(s, |j.items|)
    ensures forall k | 0 <= k < Extent(s, |j.items|) ::
              Partial(j, s).items[k] == Partial(j.items[k], Below(s, IndexText(k)))
    ensures forall k: nat | Extent(s, |j.items|) <= k < |j.items| :: Below(s, IndexText(k)) == {}
  {
  }

  lemma PartialObject(j: Json, s: set<Path>)
    requires j.Object? && !IsLeaf(j) && s != {}
    ensures Partial(j, s).Object?
    ensures forall k :: k in Partial(j, s).members <==> k in j.members && Below(s, k) != {}
    ensures forall k | k in Partial(j, s).members :: Partial(j, s).members[k] == Partial(j.members[k], Below(s, k))
  {
  }

  lemma PartialNone(j: Json)
    ensures Partial(j, {}) == Null
  {
  }

  lemma NothingBelow(t: string)
    ensures Below({}, t) == {}
  {
  }

  lemma {:induction false} NoExtent(n: nat)
    ensures Extent({}, n) == 0
  {
    if n > 0 {
      NothingBelow(IndexText(n - 1));
      NoExtent(n - 1);
    }
  }

  lemma ArrayIndexOfTextSized(j: Json, i: nat)
    requires Sized(j) && j.Array? && i < |j.items|
    ensures ArrayIndex(IndexText(i)) == Ok(i)
  {
    ArrayIndexOfText(i);
  }

  lemma IndexZero()
    ensures IndexText(0) == "0"
  {
  }

  /** `get_and_create` at one level of an object. */
  lemma {:induction false} CreateInObject(j: Json, s: set<Path>, p: Path, v: Json)
    requires j.Object? && !IsLeaf(j)
    requires p != [] && p[0] in j.members && (s == {} ==> p[0] != "0")
    requires CreateAt(Partial(j.members[p[0]], Below(s, p[0])), p[1..], v) ==
             Ok(Partial(j.members[p[0]], Below(s, p[0]) + {p[1..]}))
    ensures CreateAt(Partial(j, s), p, v) == Ok(Partial(j, s + {p}))
  {
    hide IsLeaf, Partial, Below;
    var m, t := j.members, p[0];
    var c := Partial(m[t], Below(s, t) + {p[1..]});
    PartialObject(j, s + {p});
    PartialNone(j);
    PartialNone(m[t]);
    NothingBelow(t);
    if s != {} { PartialObject(j, s); }
    var x := if s == {} then map[] else Partial(j, s).members;
    var y, z := Partial(j, s + {p}).members, x[t := c];
    forall k | k in m ensures (k in z <==> k in y) && (k in z ==> z[k] == y[k]) {
      BelowAdd(s, p, k);
      NothingBelow(k);
    }
    assert z == y;
  }

  /** Adding the next leaf to what has been rebuilt gives what is rebuilt with that leaf. */
  lemma {:induction false} CreateStep(j: Json, s: set<Path>, p: Path)
    requires Sized(j) && LeafPaths(j, s) && LeafPath(j, p) && Opens(j, s, p)
    ensures CreateAt(Partial(j, s), p, LeafOut(At(j, p).value)) == Ok(Partial(j, s + {p}))
    decreases |p|
  {
    if p != [] {
      var t, r, v := p[0], p[1..], LeafOut(At(j, p).value);
      ChildTokens(j, t);
      LeafPathsBelow(j, s, t);
      CreateStep(Child(j, t).value, Below(s, t), r);
      if j.Array? {
        var i: nat :| i < |j.items| && t == IndexText(i);
        IndexIsChild(j, i);
        CreateInArray(j, s, p, i, v);
      } else {
        CreateInObject(j, s, p, v);
      }
    }
  }
}
