/**
 Which operations `diff` emits, and in which order, said without its recursion: one pair of
 values at a time, over all places that both documents have.
 */
module DiffPlaces {
  import opened JsonValue
  import opened JsonPointer
  import opened Digits
  import opened StringEscape
  import opened TextOrder
  import opened Patch
  import opened Diff

  // ----- places --------------------------------------------------------------------

  /** Both are arrays, or both are objects. */
  predicate Alike(x: Json, y: Json) {
    (x.Array? && y.Array?) || (x.Object? && y.Object?)
  }

  /** Both documents have the place, and all along the way to it they are alike. */
  predicate Meet(s: Json, t: Json, q: Path) {
    && At(s, q).Ok? && At(t, q).Ok?
    && forall n | 0 <= n < |q| ::
         At(s, q[..n]).Ok? && At(t, q[..n]).Ok? && Alike(At(s, q[..n]).value, At(t, q[..n]).value)
  }

  lemma MeetStep(s: Json, t: Json, k: string, q: Path)
    requires Alike(s, t) && Child(s, k).Ok? && Child(t, k).Ok? && Meet(Child(s, k).value, Child(t, k).value, q)
    ensures Meet(s, t, [k] + q)
    ensures At(s, [k] + q) == At(Child(s, k).value, q) && At(t, [k] + q) == At(Child(t, k).value, q)
  {
    hide Child, Alike, At;
    var r := [k] + q;
    AtChild(s, k, q);
    AtChild(t, k, q);
    forall n | 0 <= n < |r|
      ensures At(s, r[..n]).Ok? && At(t, r[..n]).Ok? && Alike(At(s, r[..n]).value, At(t, r[..n]).value)
    {
      if n == 0 {
        AtRoot(s);
        AtRoot(t);
      } else {
        assert r[..n] == [k] + q[..n - 1];
        AtChild(s, k, q[..n - 1]);
        AtChild(t, k, q[..n - 1]);
      }
    }
  }

  lemma AtChild(j: Json, k: string, q: Path)
    requires Child(j, k).Ok?
    ensures At(j, [k] + q) == At(Child(j, k).value, q)
  {
    hide Child;
    assert ([k] + q)[1..] == q;
  }

  lemma MeetBelow(s: Json, t: Json, q: Path)
    requires q != [] && Meet(s, t, q)
    ensures Alike(s, t) && Child(s, q[0]).Ok? && Child(t, q[0]).Ok?
    ensures Meet(Child(s, q[0]).value, Child(t, q[0]).value, q[1..])
    ensures At(s, q) == At(Child(s, q[0]).value, q[1..]) && At(t, q) == At(Child(t, q[0]).value, q[1..])
  {
    hide Child, Alike;
    assert q[..0] == [];
    var c, d, r := Child(s, q[0]).value, Child(t, q[0]).value, q[1..];
    forall n | 0 <= n < |r|
      ensures At(c, r[..n]).Ok? && At(d, r[..n]).Ok? && Alike(At(c, r[..n]).value, At(d, r[..n]).value)
    {
      assert q[..n + 1][0] == q[0] && q[..n + 1][1..] == r[..n];
      assert At(s, q[..n + 1]).Ok? && At(t, q[..n + 1]).Ok?;
    }
  }

  // ----- what one pair of values asks for ----------------------------------------------

  /** The operation that the values at this place ask for, apart from what is inside both: to
      replace the one by the other if they are not alike; to remove what only the first has;
      to add what only the second has. */
  predicate Wanted(x: Json, y: Json, p: Path, op: Json) {
    || (!Alike(x, y) && !LibEq(x, y) && op == ReplaceOp(ToText(p), y))
    || (x.Object? && y.Object? && exists k ::
          k in x.members && k !in y.members && op == RemoveOp(ToText(p + [k])))
    || (x.Object? && y.Object? && exists k ::
          k in y.members && k !in x.members && op == AddOp(ToText(p + [k]), y.members[k]))
    || (x.Array? && y.Array? && exists i: nat ::
          |y.items| <= i < |x.items| && op == RemoveOp(ToText(p + [IndexText(i)])))
    || (x.Array? && y.Array? && exists i: nat ::
          |x.items| <= i < |y.items| && op == AddOp(ToText(p + ["-"]), y.items[i]))
  }

  /** The documents meet at `q` and ask for the operation there. */
  predicate WantedAt(s: Json, t: Json, q: Path, p: Path, op: Json) {
    Meet(s, t, q) && Wanted(At(s, q).value, At(t, q).value, p + q, op)
  }

  ghost predicate WantedSomewhere(s: Json, t: Json, p: Path, op: Json) {
    exists q: Path :: WantedAt(s, t, q, p, op)
  }

  lemma WantedHere(s: Json, t: Json, p: Path, op: Json)
    requires Wanted(s, t, p, op)
    ensures WantedSomewhere(s, t, p, op)
  {
    hide WantedAt, Wanted;
    WantedAtRoot(s, t, p, op);
  }

  lemma WantedAtRoot(s: Json, t: Json, p: Path, op: Json)
    ensures WantedAt(s, t, [], p, op) == Wanted(s, t, p, op)
  {
    hide Wanted, At;
    assert p + [] == p;
    AtRoot(s);
    AtRoot(t);
    assert Meet(s, t, []);
  }

  lemma WantedBelow(s: Json, t: Json, p: Path, k: string, op: Json)
    requires Alike(s, t) && Child(s, k).Ok? && Child(t, k).Ok?
    requires WantedSomewhere(Child(s, k).value, Child(t, k).value, p + [k], op)
    ensures WantedSomewhere(s, t, p, op)
  {
    hide WantedAt, Child, Alike;
    var q: Path :| WantedAt(Child(s, k).value, Child(t, k).value, q, p + [k], op);
    WantedDeeper(s, t, p, k, q, op);
  }

  lemma WantedDeeper(s: Json, t: Json, p: Path, k: string, q: Path, op: Json)
    requires Alike(s, t) && Child(s, k).Ok? && Child(t, k).Ok?
    requires WantedAt(Child(s, k).value, Child(t, k).value, q, p + [k], op)
    ensures WantedAt(s, t, [k] + q, p, op)
  {
    hide Wanted, Child, Alike;
    MeetStep(s, t, k, q);
    assert p + [k] + q == p + ([k] + q);
  }

  lemma ElementsMeet(s: Json, t: Json, i: nat)
    requires s.Array? && t.Array? && i < |s.items| && i < |t.items| && Sized(s) && Sized(t)
    ensures Child(s, IndexText(i)) == Ok(s.items[i]) && Child(t, IndexText(i)) == Ok(t.items[i])
    ensures Sized(s.items[i]) && Sized(t.items[i])
  {
    hide IndexText;
    ArrayIndexOfText(i);
    DashIsNoIndex();
  }

  lemma SizedMembers(s: Json, k: string)
    requires s.Object? && k in s.members && Sized(s)
    ensures Sized(s.members[k]) && Child(s, k) == Ok(s.members[k])
  {
  }

  // ----- nothing else is emitted ---------------------------------------------------------

  /** Every operation is asked for somewhere. */
  lemma {:induction false} EmittedIsWanted(s: Json, t: Json, p: Path, op: Json)
    requires op in DiffOps(s, t, ToText(p)) && Sized(s) && Sized(t)
    ensures WantedSomewhere(s, t, p, op)
    decreases s, 1, 0
  {
    hide WantedSomewhere, ElementOps, RemovalOps, AppendOps, SourceKeyOps, TargetKeyOps, SortedKeys, Sized, LibEq,
         ToText;
    if s.Array? && t.Array? {
      var n := if |s.items| < |t.items| then |s.items| else |t.items|;
      if op in ElementOps(s, t, n, ToText(p)) {
        ElementIsWanted(s, t, n, p, op);
      } else if op in RemovalOps(ToText(p), n, |s.items|) {
        RemovalIsWanted(s, t, n, |s.items|, p, op);
      } else {
        AppendIsWanted(s, t, t.items[n..], p, op);
      }
    } else if s.Object? && t.Object? {
      var sk, tk := SortedKeys(s.members.Keys), SortedKeys(t.members.Keys);
      if op in SourceKeyOps(s, t, sk, |sk|, ToText(p)) {
        SourceKeyIsWanted(s, t, sk, |sk|, p, op);
      } else {
        TargetKeyIsWanted(s, t, tk, |tk|, p, op);
      }
    } else {
      WantedHere(s, t, p, op);
    }
  }

  lemma {:induction false} ElementIsWanted(s: Json, t: Json, n: nat, p: Path, op: Json)
    requires s.Array? && t.Array? && n <= |s.items| && n <= |t.items| && Sized(s) && Sized(t)
    requires op in ElementOps(s, t, n, ToText(p))
    ensures WantedSomewhere(s, t, p, op)
    decreases s, 0, n
  {
    hide WantedSomewhere, DiffOps, IndexText, ToText, Child, Sized;
    var i := n - 1;
    if op in ElementOps(s, t, i, ToText(p)) {
      ElementIsWanted(s, t, i, p, op);
    } else {
      IndexPath(p, i);
      ElementsMeet(s, t, i);
      EmittedIsWanted(s.items[i], t.items[i], p + [IndexText(i)], op);
      WantedBelow(s, t, p, IndexText(i), op);
    }
  }

  lemma {:induction false} RemovalIsWanted(s: Json, t: Json, lo: nat, hi: nat, p: Path, op: Json)
    requires s.Array? && t.Array? && hi <= |s.items| && op in RemovalOps(ToText(p), lo, hi)
    requires lo == |t.items| || lo >= hi
    ensures WantedSomewhere(s, t, p, op)
    decreases hi
  {
    hide WantedSomewhere, IndexText, ToText, RemoveOp;
    var i := hi - 1;
    if op in RemovalOps(ToText(p), lo, i) {
      RemovalIsWanted(s, t, lo, i, p, op);
    } else {
      IndexPath(p, i);
      WantedHere(s, t, p, op);
    }
  }

  lemma DashPath(p: Path)
    ensures ToText(p) + "/-" == ToText(p + ["-"])
  {
    hide ToText, Escaped;
    ToTextAppend(p, "-");
    PlainCharacter('-');
    assert ToText(p) + "/" + "-" == ToText(p) + "/-";
  }

  lemma {:induction false} AppendIsWanted(s: Json, t: Json, items: seq<Json>, p: Path, op: Json)
    requires s.Array? && t.Array? && op in AppendOps(ToText(p), items)
    requires forall i | 0 <= i < |items| :: |s.items| + i < |t.items| && items[i] == t.items[|s.items| + i]
    ensures WantedSomewhere(s, t, p, op)
    decreases |items|
  {
    hide WantedSomewhere, ToText, AddOp;
    var n := |items| - 1;
    if op in AppendOps(ToText(p), items[..n]) {
      AppendIsWanted(s, t, items[..n], p, op);
    } else {
      DashPath(p);
      assert items[n] == t.items[|s.items| + n];
      WantedHere(s, t, p, op);
    }
  }

  lemma {:induction false} SourceKeyIsWanted(s: Json, t: Json, keys: seq<string>, n: nat, p: Path, op: Json)
    requires s.Object? && t.Object? && n <= |keys| && forall k | k in keys :: k in s.members
    requires op in SourceKeyOps(s, t, keys, n, ToText(p)) && Sized(s) && Sized(t)
    ensures WantedSomewhere(s, t, p, op)
    decreases s, 0, n
  {
    hide WantedSomewhere, DiffOps, Escaped, ToText, RemoveOp, Sized;
    var k := keys[n - 1];
    KeyPath(p, k);
    if op in SourceKeyOps(s, t, keys, n - 1, ToText(p)) {
      SourceKeyIsWanted(s, t, keys, n - 1, p, op);
    } else if k in t.members {
      SizedMembers(s, k);
      SizedMembers(t, k);
      EmittedIsWanted(s.members[k], t.members[k], p + [k], op);
      WantedBelow(s, t, p, k, op);
    } else {
      WantedHere(s, t, p, op);
    }
  }

  lemma {:induction false} TargetKeyIsWanted(s: Json, t: Json, keys: seq<string>, n: nat, p: Path, op: Json)
    requires s.Object? && t.Object? && n <= |keys| && forall k | k in keys :: k in t.members
    requires op in TargetKeyOps(s, t, keys, n, ToText(p))
    ensures WantedSomewhere(s, t, p, op)
    decreases n
  {
    hide WantedSomewhere, Escaped, ToText, AddOp;
    var k := keys[n - 1];
    KeyPath(p, k);
    if op in TargetKeyOps(s, t, keys, n - 1, ToText(p)) {
      TargetKeyIsWanted(s, t, keys, n - 1, p, op);
    } else {
      WantedHere(s, t, p, op);
    }
  }

  // ----- nothing is left out ------------------------------------------------------------

  /** What is asked for at the place itself is emitted. */
  lemma WantedHereIsEmitted(s: Json, t: Json, p: Path, op: Json)
    requires Wanted(s, t, p, op)
    ensures op in DiffOps(s, t, ToText(p))
  {
    hide ElementOps, RemovalOps, AppendOps, SourceKeyOps, TargetKeyOps, SortedKeys, ToText, IndexText, AddOp, RemoveOp;
    if s.Array? && t.Array? {
      ArrayWantIsEmitted(s, t, p, op);
    } else if s.Object? && t.Object? {
      ObjectWantIsEmitted(s, t, p, op);
    }
  }

  lemma ArrayWantIsEmitted(s: Json, t: Json, p: Path, op: Json)
    requires s.Array? && t.Array? && Wanted(s, t, p, op)
    ensures op in DiffOps(s, t, ToText(p))
  {
    hide ElementOps, RemovalOps, AppendOps, ToText, IndexText, AddOp, RemoveOp;
    var n := if |s.items| < |t.items| then |s.items| else |t.items|;
    assert !LibEq(s, t);
    if i: nat :| |t.items| <= i < |s.items| && op == RemoveOp(ToText(p + [IndexText(i)])) {
      IndexPath(p, i);
      RemovalIsEmitted(ToText(p), n, |s.items|, i);
    } else {
      var i: nat :| |s.items| <= i < |t.items| && op == AddOp(ToText(p + ["-"]), t.items[i]);
      DashPath(p);
      AppendIsEmitted(ToText(p), t.items[n..], i - n);
    }
  }

  lemma ObjectWantIsEmitted(s: Json, t: Json, p: Path, op: Json)
    requires s.Object? && t.Object? && Wanted(s, t, p, op)
    ensures op in DiffOps(s, t, ToText(p))
  {
    hide SourceKeyOps, TargetKeyOps, SortedKeys, ToText, Escaped, AddOp, RemoveOp;
    var sk, tk := SortedKeys(s.members.Keys), SortedKeys(t.members.Keys);
    assert !LibEq(s, t);
    if k :| k in s.members && k !in t.members && op == RemoveOp(ToText(p + [k])) {
      KeyPath(p, k);
      var i :| 0 <= i < |sk| && sk[i] == k;
      SourceKeyIsEmitted(s, t, sk, i, |sk|, ToText(p), op);
    } else {
      var k :| k in t.members && k !in s.members && op == AddOp(ToText(p + [k]), t.members[k]);
      KeyPath(p, k);
      var i :| 0 <= i < |tk| && tk[i] == k;
      TargetKeyIsEmitted(s, t, tk, i, |tk|, ToText(p));
    }
  }

  lemma {:induction false} RemovalIsEmitted(path: string, lo: nat, hi: nat, i: nat)
    requires lo <= i < hi
    ensures RemoveOp(path + "/" + IndexText(i)) in RemovalOps(path, lo, hi)
    decreases hi
  {
    hide IndexText, RemoveOp;
    if i < hi - 1 { RemovalIsEmitted(path, lo, hi - 1, i); }
  }

  lemma {:induction false} AppendIsEmitted(path: string, items: seq<Json>, i: nat)
    requires i < |items|
    ensures AddOp(path + "/-", items[i]) in AppendOps(path, items)
    decreases |items|
  {
    hide AddOp;
    if i < |items| - 1 { AppendIsEmitted(path, items[..|items| - 1], i); }
  }

  lemma {:induction false} SourceKeyIsEmitted(s: Json, t: Json, keys: seq<string>, i: nat, n: nat, path: string,
                                              op: Json)
    requires s.Object? && t.Object? && i < n <= |keys| && forall k | k in keys :: k in s.members
    requires var k := keys[i];
             if k in t.members then op in DiffOps(s.members[k], t.members[k], path + "/" + Escaped(k))
             else op == RemoveOp(path + "/" + Escaped(k))
    ensures op in SourceKeyOps(s, t, keys, n, path)
    decreases n
  {
    hide DiffOps, Escaped, RemoveOp;
    if i < n - 1 { SourceKeyIsEmitted(s, t, keys, i, n - 1, path, op); }
  }

  lemma {:induction false} TargetKeyIsEmitted(s: Json, t: Json, keys: seq<string>, i: nat, n: nat, path: string)
    requires s.Object? && t.Object? && i < n <= |keys| && forall k | k in keys :: k in t.members
    requires keys[i] !in s.members
    ensures var k := keys[i];
            k in keys && AddOp(path + "/" + Escaped(k), t.members[k]) in TargetKeyOps(s, t, keys, n, path)
    decreases n
  {
    hide Escaped, AddOp;
    if i < n - 1 { TargetKeyIsEmitted(s, t, keys, i, n - 1, path); }
  }

  lemma {:induction false} ElementIsEmitted(s: Json, t: Json, i: nat, n: nat, path: string, op: Json)
    requires s.Array? && t.Array? && i < n <= |s.items| && n <= |t.items|
    requires op in DiffOps(s.items[i], t.items[i], path + "/" + IndexText(i))
    ensures op in ElementOps(s, t, n, path)
    decreases n
  {
    hide DiffOps, IndexText;
    if i < n - 1 { ElementIsEmitted(s, t, i, n - 1, path, op); }
  }

  /** What is emitted for a child that both have is emitted for the parents. */
  lemma EmittedForParents(s: Json, t: Json, p: Path, k: string, op: Json)
    requires Alike(s, t) && Child(s, k).Ok? && Child(t, k).Ok?
    requires op in DiffOps(Child(s, k).value, Child(t, k).value, ToText(p + [k]))
    ensures op in DiffOps(s, t, ToText(p))
  {
    hide ToText, Escaped, IndexText, ArrayIndex, ElementOps, SourceKeyOps, TargetKeyOps, RemovalOps, AppendOps,
         SortedKeys;
    ChildUnequal(s, t, k, ToText(p + [k]), op);
    if s.Array? {
      var i := ArrayIndex(k).value;
      ArrayIndexIsCanonical(k);
      IndexPath(p, i);
      ElementIsEmitted(s, t, i, if |s.items| < |t.items| then |s.items| else |t.items|, ToText(p), op);
    } else {
      KeyPath(p, k);
      var sk := SortedKeys(s.members.Keys);
      var i :| 0 <= i < |sk| && sk[i] == k;
      SourceKeyIsEmitted(s, t, sk, i, |sk|, ToText(p), op);
    }
  }

  lemma ChildUnequal(s: Json, t: Json, k: string, path: string, op: Json)
    requires Alike(s, t) && Child(s, k).Ok? && Child(t, k).Ok?
    requires op in DiffOps(Child(s, k).value, Child(t, k).value, path)
    ensures !LibEq(s, t)
  {
    hide ArrayIndex, ElementOps, SourceKeyOps, TargetKeyOps, RemovalOps, AppendOps, SortedKeys;
    assert !LibEq(Child(s, k).value, Child(t, k).value);
  }

  lemma {:induction false} WantedIsEmitted(s: Json, t: Json, q: Path, p: Path, op: Json)
    requires WantedAt(s, t, q, p, op)
    ensures op in DiffOps(s, t, ToText(p))
    decreases |q|
  {
    hide DiffOps, Wanted, Meet, Child, Alike, At, ToText;
    if q == [] {
      WantedAtRoot(s, t, p, op);
      WantedHereIsEmitted(s, t, p, op);
    } else {
      MeetBelow(s, t, q);
      assert p + [q[0]] + q[1..] == p + q;
      WantedIsEmitted(Child(s, q[0]).value, Child(t, q[0]).value, q[1..], p + [q[0]], op);
      EmittedForParents(s, t, p, q[0], op);
    }
  }

  /** The operations of a difference are exactly those that some place asks for. */
  lemma EmittedExactly(s: Json, t: Json, p: Path, op: Json)
    requires Sized(s) && Sized(t)
    ensures op in DiffOps(s, t, ToText(p)) <==> WantedSomewhere(s, t, p, op)
  {
    hide DiffOps, WantedAt, ToText;
    if op in DiffOps(s, t, ToText(p)) { EmittedIsWanted(s, t, p, op); }
    if q: Path :| WantedAt(s, t, q, p, op) { WantedIsEmitted(s, t, q, p, op); }
  }

  /** So a value is replaced only where both documents have one, all along the way they are alike,
      and the two values are not: never a whole array by an array or a whole object by an object. */
  lemma ReplacedOnlyLeaves(s: Json, t: Json, q: Path, v: Json)
    requires Sized(s) && Sized(t) && ReplaceOp(ToText(q), v) in DiffOps(s, t, "")
    ensures Meet(s, t, q) && At(t, q) == Ok(v) && !Alike(At(s, q).value, v) && !LibEq(At(s, q).value, v)
  {
    hide DiffOps, Meet, LibEq, Alike, ToText, At, IndexText;
    ToTextOfNone();
    var op := ReplaceOp(ToText(q), v);
    EmittedIsWanted(s, t, [], op);
    var r: Path :| WantedAt(s, t, r, [], op);
    assert Meet(s, t, r) && [] + r == r;
    ReplaceWanted(s, t, r, q, v);
  }

  lemma ReplaceWanted(s: Json, t: Json, r: Path, q: Path, v: Json)
    requires WantedAt(s, t, r, [], ReplaceOp(ToText(q), v))
    ensures r == q && Meet(s, t, q) && At(t, q) == Ok(v) && !Alike(At(s, q).value, v) && !LibEq(At(s, q).value, v)
  {
    hide LibEq, Alike, ToText, At, IndexText;
    assert [] + r == r;
    ReplaceIsNoOther(ToText(q), v);
    assert ToText(q) == ToText(r) && At(t, r) == Ok(v);
    ParsePrint(q);
    ParsePrint(r);
  }

  lemma ReplaceIsNoOther(path: string, v: Json)
    ensures forall x :: ReplaceOp(path, v) != RemoveOp(x)
    ensures forall x, w :: ReplaceOp(path, v) != AddOp(x, w)
    ensures forall x, w :: ReplaceOp(path, v) == ReplaceOp(x, w) ==> x == path && w == v
  {
    forall x ensures ReplaceOp(path, v) != RemoveOp(x) {
      assert ReplaceOp(path, v).members["op"] != RemoveOp(x).members["op"];
    }
    forall x, w ensures ReplaceOp(path, v) != AddOp(x, w) {
      assert ReplaceOp(path, v).members["op"] != AddOp(x, w).members["op"];
    }
    forall x, w | ReplaceOp(path, v) == ReplaceOp(x, w) ensures x == path && w == v {
      assert ReplaceOp(path, v).members["path"] == ReplaceOp(x, w).members["path"];
      assert ReplaceOp(path, v).members["value"] == ReplaceOp(x, w).members["value"];
    }
  }

  // ----- in which order -------------------------------------------------------------------

  /** Of two children of a pair of alike values the first is dealt with before the second: in
      objects the members of the source before those that only the target has, each in key
      order; in arrays the common elements from the front, then the elements that only the
      source has from the back, or those that only the target has. */
  ghost predicate TokenEarlier(s: Json, t: Json, a: string, b: string) {
    if s.Object? && t.Object? then
      (a in s.members && b !in s.members) || ((a in s.members <==> b in s.members) && Less(a, b))
    else
      s.Array? && t.Array? && exists i: nat | i < |s.items| && a == IndexText(i) ::
        if i < |t.items| then b == "-" || exists j: nat :: i < j && b == IndexText(j)
        else exists j: nat :: |t.items| <= j < i && b == IndexText(j)
  }

  /** The order of two places; appended elements share theirs. */
  ghost predicate Earlier(s: Json, t: Json, x: Path, y: Path)
    decreases |x|
  {
    && x != [] && y != []
    && if x[0] != y[0] then TokenEarlier(s, t, x[0], y[0])
       else (s.Array? && x == y == ["-"]) ||
            (Child(s, x[0]).Ok? && Child(t, x[0]).Ok? &&
             Earlier(Child(s, x[0]).value, Child(t, x[0]).value, x[1..], y[1..]))
  }

  /** The operation works at this place. */
  predicate PlaceIs(op: Json, x: Path) {
    op.Object? && "path" in op.members && op.members["path"] == String(ToText(x))
  }

  ghost predicate InOrder(s: Json, t: Json, p: Path, ops: seq<Json>) {
    forall i, j, x: Path, y: Path | 0 <= i < j < |ops| && PlaceIs(ops[i], p + x) && PlaceIs(ops[j], p + y) ::
      Earlier(s, t, x, y)
  }

  /** Below `p` all places begin with one of these tokens. */
  ghost predicate HeadsIn(ops: seq<Json>, p: Path, heads: set<string>) {
    forall i, x: Path | 0 <= i < |ops| && PlaceIs(ops[i], p + x) :: x != [] && x[0] in heads
  }

  lemma PlaceIsOne(op: Json, x: Path, y: Path)
    requires PlaceIs(op, x) && PlaceIs(op, y)
    ensures x == y
  {
    ParsePrint(x);
    ParsePrint(y);
  }

  lemma HeadOfPlace(op: Json, p: Path, a: string, r: Path, x: Path)
    requires PlaceIs(op, p + [a] + r) && PlaceIs(op, p + x)
    ensures x == [a] + r
  {
    hide PlaceIs;
    PlaceIsOne(op, p + [a] + r, p + x);
    assert x == (p + x)[|p|..] == (p + [a] + r)[|p|..] == [a] + r;
  }

  /** One operation at one place. */
  lemma OneInOrder(s: Json, t: Json, p: Path, a: string, op: Json)
    requires PlaceIs(op, p + [a])
    ensures InOrder(s, t, p, [op]) && HeadsIn([op], p, {a})
  {
    hide PlaceIs;
    forall x: Path | PlaceIs(op, p + x) ensures x == [a] {
      assert p + [a] + [] == p + [a];
      HeadOfPlace(op, p, a, [], x);
    }
  }

  lemma NoneInOrder(s: Json, t: Json, p: Path)
    ensures InOrder(s, t, p, []) && HeadsIn([], p, {})
  {
  }

  /** One group of operations behind another. */
  lemma Joined(s: Json, t: Json, p: Path, a: seq<Json>, b: seq<Json>, heads: set<string>, tails: set<string>)
    requires InOrder(s, t, p, a) && InOrder(s, t, p, b) && HeadsIn(a, p, heads) && HeadsIn(b, p, tails)
    requires forall h, l | h in heads && l in tails :: h != l && TokenEarlier(s, t, h, l)
    ensures InOrder(s, t, p, a + b) && HeadsIn(a + b, p, heads + tails)
  {
    hide PlaceIs, TokenEarlier, InOrder, HeadsIn;
    HeadsJoined(p, a, b, heads, tails);
    forall i, j, x: Path, y: Path | 0 <= i < |a| && 0 <= j < |b| && PlaceIs(a[i], p + x) && PlaceIs(b[j], p + y)
      ensures Earlier(s, t, x, y)
    {
      HeadOf(a, p, heads, i, x);
      HeadOf(b, p, tails, j, y);
    }
    OrderJoined(s, t, p, a, b);
  }

  lemma HeadOf(ops: seq<Json>, p: Path, heads: set<string>, i: nat, x: Path)
    requires HeadsIn(ops, p, heads) && i < |ops| && PlaceIs(ops[i], p + x)
    ensures x != [] && x[0] in heads
  {
    hide PlaceIs;
  }

  lemma HeadsJoined(p: Path, a: seq<Json>, b: seq<Json>, heads: set<string>, tails: set<string>)
    requires HeadsIn(a, p, heads) && HeadsIn(b, p, tails)
    ensures HeadsIn(a + b, p, heads + tails)
  {
    hide PlaceIs;
    var all := a + b;
    forall i, x: Path | 0 <= i < |all| && PlaceIs(all[i], p + x) ensures x != [] && x[0] in heads + tails {
      if i < |a| { assert PlaceIs(a[i], p + x); } else { assert PlaceIs(b[i - |a|], p + x); }
    }
  }

  lemma OrderJoined(s: Json, t: Json, p: Path, a: seq<Json>, b: seq<Json>)
    requires InOrder(s, t, p, a) && InOrder(s, t, p, b)
    requires forall i, j, x: Path, y: Path |
               0 <= i < |a| && 0 <= j < |b| && PlaceIs(a[i], p + x) && PlaceIs(b[j], p + y) :: Earlier(s, t, x, y)
    ensures InOrder(s, t, p, a + b)
  {
    hide PlaceIs, Earlier;
    var all := a + b;
    forall i, j, x: Path, y: Path | 0 <= i < j < |all| && PlaceIs(all[i], p + x) && PlaceIs(all[j], p + y)
      ensures Earlier(s, t, x, y)
    {
      if j < |a| {
        assert PlaceIs(a[i], p + x) && PlaceIs(a[j], p + y);
      } else if i >= |a| {
        assert PlaceIs(b[i - |a|], p + x) && PlaceIs(b[j - |a|], p + y);
      } else {
        assert PlaceIs(a[i], p + x) && PlaceIs(b[j - |a|], p + y);
      }
    }
  }

  /** The place of an emitted operation lies at or below the place that it is emitted for. */
  lemma PlaceBelow(s: Json, t: Json, p: Path, op: Json)
    requires op in DiffOps(s, t, ToText(p)) && Sized(s) && Sized(t)
    ensures exists r: Path :: PlaceIs(op, p + r)
  {
    hide DiffOps, Wanted, Sized, ToText, At;
    EmittedIsWanted(s, t, p, op);
    var q: Path :| WantedAt(s, t, q, p, op);
    PlaceOfWanted(At(s, q).value, At(t, q).value, p, q, op);
  }

  lemma PlaceOfWanted(x: Json, y: Json, p: Path, q: Path, op: Json)
    requires Wanted(x, y, p + q, op)
    ensures exists r: Path :: PlaceIs(op, p + r)
  {
    hide ToText, IndexText, LibEq, Alike;
    OpPlaces(p + q, y);
    if k :| op == RemoveOp(ToText(p + q + [k])) {
      OpPlaces(p + q + [k], y);
      assert p + q + [k] == p + (q + [k]);
    } else if k, v :| op == AddOp(ToText(p + q + [k]), v) {
      OpPlaces(p + q + [k], v);
      assert p + q + [k] == p + (q + [k]);
    }
  }

  lemma OpPlaces(x: Path, v: Json)
    ensures PlaceIs(ReplaceOp(ToText(x), v), x) && PlaceIs(RemoveOp(ToText(x)), x) && PlaceIs(AddOp(ToText(x), v), x)
  {
    hide ToText;
  }

  /** What is in order for a child is in order for its parents. */
  lemma ChildInOrder(s: Json, t: Json, c: Json, d: Json, p: Path, k: string)
    requires Child(s, k) == Ok(c) && Child(t, k) == Ok(d) && Sized(c) && Sized(d)
    requires InOrder(c, d, p + [k], DiffOps(c, d, ToText(p + [k])))
    ensures InOrder(s, t, p, DiffOps(c, d, ToText(p + [k])))
    ensures HeadsIn(DiffOps(c, d, ToText(p + [k])), p, {k})
  {
    hide PlaceIs, DiffOps, Child, Sized, ToText, TokenEarlier;
    var ops := DiffOps(c, d, ToText(p + [k]));
    forall i, x: Path | 0 <= i < |ops| && PlaceIs(ops[i], p + x)
      ensures x != [] && x[0] == k && PlaceIs(ops[i], p + [k] + x[1..])
    {
      PlaceBelow(c, d, p + [k], ops[i]);
      var r: Path :| PlaceIs(ops[i], p + [k] + r);
      HeadOfPlace(ops[i], p, k, r, x);
      assert x[1..] == r;
    }
  }

  function IndexTexts(lo: nat, hi: nat): set<string> {
    set k: nat | lo <= k < hi :: IndexText(k)
  }

  lemma IndexTextsGrow(lo: nat, n: nat)
    ensures lo <= n ==> IndexTexts(lo, n + 1) == IndexTexts(lo, n) + {IndexText(n)}
    ensures lo >= n ==> IndexTexts(lo, n) == {}
  {
    hide IndexText;
  }

  lemma IndexEarlier(s: Json, t: Json, i: nat, j: nat)
    requires s.Array? && t.Array? && i < |s.items|
    requires if i < |t.items| then i < j else |t.items| <= j < i
    ensures IndexText(i) != IndexText(j) && TokenEarlier(s, t, IndexText(i), IndexText(j))
  {
    hide IndexText;
    if IndexText(i) == IndexText(j) { IndexTextInjective(i, j); }
  }

  lemma IndexEarlierThanDash(s: Json, t: Json, i: nat)
    requires s.Array? && t.Array? && i < |s.items| && i < |t.items|
    ensures IndexText(i) != "-" && TokenEarlier(s, t, IndexText(i), "-")
  {
    hide IndexText;
    assert IsDigit(IndexText(i)[0]);
  }

  lemma {:induction false} ElementsInOrder(s: Json, t: Json, n: nat, p: Path)
    requires s.Array? && t.Array? && n <= |s.items| && n <= |t.items| && Sized(s) && Sized(t)
    ensures var ops := ElementOps(s, t, n, ToText(p)); InOrder(s, t, p, ops) && HeadsIn(ops, p, IndexTexts(0, n))
    decreases s, 0, n
  {
    hide InOrder, HeadsIn, DiffOps, IndexText, IndexTexts, ToText, Sized, Child, TokenEarlier;
    if n == 0 {
      NoneInOrder(s, t, p);
      IndexTextsGrow(0, 0);
    } else {
      var i, k := n - 1, IndexText(n - 1);
      IndexPath(p, i);
      ElementsMeet(s, t, i);
      ElementsInOrder(s, t, i, p);
      OpsInOrder(s.items[i], t.items[i], p + [k]);
      ChildInOrder(s, t, s.items[i], t.items[i], p, k);
      forall h | h in IndexTexts(0, i) ensures h != k && TokenEarlier(s, t, h, k) {
        var j := IndexOfText(0, i, h);
        IndexEarlier(s, t, j, i);
      }
      Joined(s, t, p, ElementOps(s, t, i, ToText(p)), DiffOps(s.items[i], t.items[i], ToText(p + [k])),
             IndexTexts(0, i), {k});
      IndexTextsGrow(0, i);
    }
  }

  lemma IndexOfText(lo: nat, hi: nat, h: string) returns (k: nat)
    requires h in IndexTexts(lo, hi)
    ensures lo <= k < hi && h == IndexText(k)
  {
    hide IndexText;
    k :| lo <= k < hi && h == IndexText(k);
  }

  lemma {:induction false} RemovalsInOrder(s: Json, t: Json, lo: nat, hi: nat, p: Path)
    requires s.Array? && t.Array? && hi <= |s.items| && (lo == |t.items| || lo >= hi)
    ensures var ops := RemovalOps(ToText(p), lo, hi); InOrder(s, t, p, ops) && HeadsIn(ops, p, IndexTexts(lo, hi))
    decreases hi
  {
    hide InOrder, HeadsIn, IndexText, IndexTexts, ToText, TokenEarlier;
    if lo >= hi {
      NoneInOrder(s, t, p);
      IndexTextsGrow(lo, hi);
    } else {
      var i, k := hi - 1, IndexText(hi - 1);
      IndexPath(p, i);
      RemovalsInOrder(s, t, lo, i, p);
      OneInOrder(s, t, p, k, RemoveOp(ToText(p + [k])));
      forall h | h in IndexTexts(lo, i) ensures h != k && TokenEarlier(s, t, k, h) {
        var j := IndexOfText(lo, i, h);
        IndexEarlier(s, t, i, j);
      }
      Joined(s, t, p, [RemoveOp(ToText(p + [k]))], RemovalOps(ToText(p), lo, i), {k}, IndexTexts(lo, i));
      IndexTextsGrow(lo, i);
      assert {k} + IndexTexts(lo, i) == IndexTexts(lo, i) + {k};
    }
  }

  /** All appends are at one place. */
  lemma {:induction false} AppendsInOrder(s: Json, t: Json, items: seq<Json>, p: Path)
    requires s.Array?
    ensures var ops := AppendOps(ToText(p), items); InOrder(s, t, p, ops) && HeadsIn(ops, p, {"-"})
  {
    hide PlaceIs, ToText;
    var ops := AppendOps(ToText(p), items);
    forall i, x: Path | 0 <= i < |ops| && PlaceIs(ops[i], p + x) ensures x == ["-"] {
      AppendsAtDash(items, p, i);
      assert p + ["-"] + [] == p + ["-"];
      HeadOfPlace(ops[i], p, "-", [], x);
    }
  }

  lemma {:induction false} AppendsAtDash(items: seq<Json>, p: Path, i: nat)
    requires i < |AppendOps(ToText(p), items)|
    ensures PlaceIs(AppendOps(ToText(p), items)[i], p + ["-"])
    decreases |items|
  {
    hide ToText;
    DashPath(p);
    if i < |AppendOps(ToText(p), items[..|items| - 1])| { AppendsAtDash(items[..|items| - 1], p, i); }
  }

  function AsSet(keys: seq<string>): set<string> {
    set i | 0 <= i < |keys| :: keys[i]
  }

  lemma {:induction false} SourceKeysInOrder(s: Json, t: Json, keys: seq<string>, n: nat, p: Path)
    requires s.Object? && t.Object? && n <= |keys| && Sorted(keys) && forall k | k in keys :: k in s.members
    requires Sized(s) && Sized(t)
    ensures var ops := SourceKeyOps(s, t, keys, n, ToText(p));
            InOrder(s, t, p, ops) && HeadsIn(ops, p, AsSet(keys[..n]))
    decreases s, 0, n
  {
    hide InOrder, HeadsIn, DiffOps, ToText, Sized, Child, Less, Escaped;
    if n == 0 {
      NoneInOrder(s, t, p);
      assert AsSet(keys[..0]) == {};
    } else {
      var k := keys[n - 1];
      var before := AsSet(keys[..n - 1]);
      KeyPath(p, k);
      SourceKeysInOrder(s, t, keys, n - 1, p);
      KeysGrow(keys, n - 1);
      assert AsSet(keys[..n]) == before + {k};
      forall h | h in before ensures h != k && TokenEarlier(s, t, h, k) { SortedBefore(keys, n - 1, h); }
      SourceKeyInOrder(s, t, p, k);
      Joined(s, t, p, SourceKeyOps(s, t, keys, n - 1, ToText(p)), OneKeyOps(s, t, k, ToText(p)), before, {k});
    }
  }

  lemma {:induction false} SourceKeyInOrder(s: Json, t: Json, p: Path, k: string)
    requires s.Object? && t.Object? && k in s.members && Sized(s) && Sized(t)
    ensures InOrder(s, t, p, OneKeyOps(s, t, k, ToText(p))) && HeadsIn(OneKeyOps(s, t, k, ToText(p)), p, {k})
    decreases s, 0, 0
  {
    hide InOrder, HeadsIn, DiffOps, ToText, Sized, Child, Escaped;
    KeyPath(p, k);
    if k in t.members {
      SizedMembers(s, k);
      SizedMembers(t, k);
      OpsInOrder(s.members[k], t.members[k], p + [k]);
      ChildInOrder(s, t, s.members[k], t.members[k], p, k);
    } else {
      OneInOrder(s, t, p, k, RemoveOp(ToText(p + [k])));
    }
  }

  lemma SortedBefore(keys: seq<string>, n: nat, h: string)
    requires Sorted(keys) && n < |keys| && h in keys[..n]
    ensures h in keys && keys[n] in keys && Less(h, keys[n]) && h != keys[n]
  {
    hide Less;
    var i :| 0 <= i < n && keys[i] == h;
    Irreflexive(h);
  }

  lemma {:induction false} TargetKeysInOrder(s: Json, t: Json, keys: seq<string>, n: nat, p: Path)
    requires s.Object? && t.Object? && n <= |keys| && Sorted(keys) && forall k | k in keys :: k in t.members
    ensures var ops := TargetKeyOps(s, t, keys, n, ToText(p));
            InOrder(s, t, p, ops) && HeadsIn(ops, p, AsSet(keys[..n]) - s.members.Keys)
    decreases n
  {
    hide InOrder, HeadsIn, ToText, Less, Escaped;
    if n == 0 {
      NoneInOrder(s, t, p);
      assert AsSet(keys[..0]) - s.members.Keys == {};
    } else {
      var k := keys[n - 1];
      var before := AsSet(keys[..n - 1]) - s.members.Keys;
      KeyPath(p, k);
      TargetKeysInOrder(s, t, keys, n - 1, p);
      KeysGrow(keys, n - 1);
      if k in s.members {
        assert AsSet(keys[..n]) - s.members.Keys == before;
        assert TargetKeyOps(s, t, keys, n, ToText(p)) == TargetKeyOps(s, t, keys, n - 1, ToText(p));
      } else {
        assert AsSet(keys[..n]) - s.members.Keys == before + {k};
        forall h | h in before ensures h != k && TokenEarlier(s, t, h, k) { SortedBefore(keys, n - 1, h); }
        var op := AddOp(ToText(p + [k]), t.members[k]);
        OneInOrder(s, t, p, k, op);
        Joined(s, t, p, TargetKeyOps(s, t, keys, n - 1, ToText(p)), [op], before, {k});
      }
    }
  }

  /** Of two operations of a difference the first is at an earlier place; so no place gets two,
      except that several elements may be appended to one array. */
  lemma {:induction false} OpsInOrder(s: Json, t: Json, p: Path)
    requires Sized(s) && Sized(t)
    ensures InOrder(s, t, p, DiffOps(s, t, ToText(p)))
    decreases s, 1, 0
  {
    hide InOrder, ElementOps, RemovalOps, AppendOps, SourceKeyOps, TargetKeyOps, SortedKeys, ToText, Sized, LibEq;
    NoneInOrder(s, t, p);
    if LibEq(s, t) {
    } else if s.Array? && t.Array? {
      ArrayOpsInOrder(s, t, p);
    } else if s.Object? && t.Object? {
      ObjectOpsInOrder(s, t, p);
    } else {
      SingleInOrder(s, t, p, ReplaceOp(ToText(p), t));
    }
  }

  lemma SingleInOrder(s: Json, t: Json, p: Path, op: Json)
    ensures InOrder(s, t, p, [op])
  {
  }

  lemma {:induction false} ArrayOpsInOrder(s: Json, t: Json, p: Path)
    requires s.Array? && t.Array? && Sized(s) && Sized(t) && !LibEq(s, t)
    ensures InOrder(s, t, p, DiffOps(s, t, ToText(p)))
    decreases s, 0, |s.items| + 1
  {
    hide InOrder, HeadsIn, ElementOps, RemovalOps, AppendOps, ToText, Sized, IndexText, IndexTexts, TokenEarlier;
    var n := if |s.items| < |t.items| then |s.items| else |t.items|;
    var first, second, third := ElementOps(s, t, n, ToText(p)), RemovalOps(ToText(p), n, |s.items|),
                                AppendOps(ToText(p), t.items[n..]);
    ElementsInOrder(s, t, n, p);
    RemovalsInOrder(s, t, n, |s.items|, p);
    AppendsInOrder(s, t, t.items[n..], p);
    forall h, l | h in IndexTexts(0, n) && l in IndexTexts(n, |s.items|) ensures h != l && TokenEarlier(s, t, h, l) {
      var i := IndexOfText(0, n, h);
      var j := IndexOfText(n, |s.items|, l);
      IndexEarlier(s, t, i, j);
    }
    Joined(s, t, p, first, second, IndexTexts(0, n), IndexTexts(n, |s.items|));
    IndexTextsGrow(n, |s.items|);
    if |s.items| <= |t.items| {
      forall h | h in IndexTexts(0, n) ensures h != "-" && TokenEarlier(s, t, h, "-") {
        var i := IndexOfText(0, n, h);
        IndexEarlierThanDash(s, t, i);
      }
      assert IndexTexts(0, n) + IndexTexts(n, |s.items|) == IndexTexts(0, n);
      Joined(s, t, p, first + second, third, IndexTexts(0, n), {"-"});
    } else {
      NoAppends(t, n, p);
      assert first + second + third == first + second;
    }
  }

  lemma NoAppends(t: Json, n: nat, p: Path)
    requires t.Array? && n == |t.items|
    ensures AppendOps(ToText(p), t.items[n..]) == []
  {
    hide ToText;
  }

  lemma {:induction false} ObjectOpsInOrder(s: Json, t: Json, p: Path)
    requires s.Object? && t.Object? && Sized(s) && Sized(t) && !LibEq(s, t)
    ensures InOrder(s, t, p, DiffOps(s, t, ToText(p)))
    decreases s, 0, |s.members| + 1
  {
    hide InOrder, HeadsIn, SourceKeyOps, TargetKeyOps, SortedKeys, ToText, Sized, Less, LibEq;
    var sk, tk := SortedKeys(s.members.Keys), SortedKeys(t.members.Keys);
    ObjectOps(s, t, ToText(p));
    SourceKeysInOrder(s, t, sk, |sk|, p);
    TargetKeysInOrder(s, t, tk, |tk|, p);
    assert sk[..|sk|] == sk && tk[..|tk|] == tk;
    Joined(s, t, p, SourceKeyOps(s, t, sk, |sk|, ToText(p)), TargetKeyOps(s, t, tk, |tk|, ToText(p)),
           AsSet(sk), AsSet(tk) - s.members.Keys);
  }
}
