/**
 `source.patch(diff(source, target))` never throws and equals the target.
 */
module DiffRoundTrip {
  import opened JsonValue
  import opened JsonPointer
  import opened Digits
  import opened StringEscape
  import opened TextOrder
  import opened Patch
  import opened Diff
  import opened Words

  /** What patching leaves: the target, except where source and target were already equal
      for `operator==` and the source value stays. */
  function Reached(s: Json, t: Json): Json
    decreases s
  {
    if LibEq(s, t) then s
    else match (s, t)
      case (Array(a), Array(b)) =>
        Array(seq(|b|, i requires 0 <= i < |b| => if i < |a| then Reached(a[i], b[i]) else b[i]))
      case (Object(m), Object(n)) =>
        Object(map k | k in n :: if k in m then Reached(m[k], n[k]) else n[k])
      case _ => t
  }

  /** The reached value equals the target for `operator==` exactly when the target holds
      no NaN and no discarded value (otherwise nothing equals it, not even itself). */
  lemma {:induction false} ReachedEqualsTarget(s: Json, t: Json)
    ensures LibEq(Reached(s, t), t) <==> Clean(t)
    decreases s, 1
  {
    hide Clean;
    EqualToItself(t);
    if LibEq(s, t) {
      EqualImpliesClean(s, t);
    } else if s.Array? && t.Array? {
      ReachedArray(s, t);
    } else if s.Object? && t.Object? {
      ReachedObject(s, t);
    }
  }

  lemma {:induction false} ReachedArray(s: Json, t: Json)
    requires s.Array? && t.Array? && !LibEq(s, t)
    ensures LibEq(Reached(s, t), t) <==> Clean(t)
    decreases s, 0
  {
    var a, b, r := s.items, t.items, Reached(s, t).items;
    forall i | 0 <= i < |b| ensures LibEq(r[i], b[i]) <==> Clean(b[i]) {
      if i < |a| { ReachedEqualsTarget(a[i], b[i]); } else { EqualToItself(b[i]); }
    }
  }

  lemma {:induction false} ReachedObject(s: Json, t: Json)
    requires s.Object? && t.Object? && !LibEq(s, t)
    ensures LibEq(Reached(s, t), t) <==> Clean(t)
    decreases s, 0
  {
    hide Reached;
    ReachedMembers(s, t);
    var m, n, r := s.members, t.members, Reached(s, t).members;
    forall k | k in n.Keys ensures LibEq(r[k], n[k]) <==> Clean(n[k]) {
      if k in m { ReachedEqualsTarget(m[k], n[k]); } else { EqualToItself(n[k]); }
    }
  }

  /** No operations change nothing. */
  lemma ApplyNone(doc: Json, p: seq<string>)
    requires At(doc, p).Ok?
    ensures ApplyOps(doc, []) == Ok(Put(doc, p, At(doc, p).value))
  {
    PutSame(doc, p);
  }

  // ----- the emitted operations, one at a time -------------------------------

  lemma AppendPath(p: seq<string>)
    ensures ToText(p) + "/-" == ToText(p + ["-"])
  {
    ToTextAppend(p, "-");
    assert Escaped("-") == "-" + Escaped("");
    assert ToText(p) + "/" + "-" == ToText(p) + "/-";
  }

  lemma ApplyReplace(doc: Json, p: seq<string>, v: Json)
    requires At(doc, p).Ok?
    ensures ApplyOps(doc, [ReplaceOp(ToText(p), v)]) == Ok(Put(doc, p, v))
  {
    hide ToText, Parsed, At, Put, ApplyOp, ReplaceOp, ApplyOps;
    ParsePrint(p);
    ReplaceMeans(doc, ToText(p), v);
    OneOp(doc, ReplaceOp(ToText(p), v));
  }

  lemma ApplyRemove(doc: Json, p: seq<string>, last: string)
    requires At(doc, p).Ok? && RemoveChild(At(doc, p).value, last).Ok?
    ensures ApplyOps(doc, [RemoveOp(ToText(p + [last]))]) == Ok(Put(doc, p, RemoveChild(At(doc, p).value, last).value))
  {
    hide ToText, Parsed, OperationRemove, RemoveChild, At, Put, ApplyOp, RemoveOp, ApplyOps;
    ParsePrint(p + [last]);
    RemoveAt(doc, p, last);
    RemoveOpMeans(doc, ToText(p + [last]));
    OneOp(doc, RemoveOp(ToText(p + [last])));
  }

  lemma ApplyAdd(doc: Json, p: seq<string>, last: string, v: Json)
    requires At(doc, p).Ok? && AddChild(At(doc, p).value, last, v).Ok?
    ensures ApplyOps(doc, [AddOp(ToText(p + [last]), v)]) == Ok(Put(doc, p, AddChild(At(doc, p).value, last, v).value))
  {
    hide ToText, Parsed, OperationAdd, AddChild, At, Put, ApplyOp, AddOp, ApplyOps;
    ParsePrint(p + [last]);
    AddAt(doc, p, last, v);
    AddOpMeans(doc, ToText(p + [last]), v);
    OneOp(doc, AddOp(ToText(p + [last]), v));
  }

  lemma OneOp(doc: Json, op: Json)
    ensures ApplyOps(doc, [op]) == ApplyOp(doc, op)
  {
    hide ApplyOp;
    assert [op][1..] == [];
  }

  /** Two groups of operations that both change only the value at `p`. */
  lemma {:induction false} ThenPut(doc: Json, p: seq<string>, a: seq<Json>, x: Json, b: seq<Json>, y: Json)
    requires At(doc, p).Ok? && ApplyOps(doc, a) == Ok(Put(doc, p, x))
    requires At(Put(doc, p, x), p).Ok? ==> ApplyOps(Put(doc, p, x), b) == Ok(Put(Put(doc, p, x), p, y))
    ensures ApplyOps(doc, a + b) == Ok(Put(doc, p, y))
  {
    PutPut(doc, p, x, y);
    ApplyOpsConcat(doc, a, b);
  }

  // ----- arrays --------------------------------------------------------------

  /** Removing from the back shortens the array at `p` to `lo` elements. */
  lemma {:induction false} RemovalPhase(doc: Json, p: seq<string>, x: seq<Json>, lo: nat)
    requires At(doc, p) == Ok(Array(x)) && lo <= |x| < TWO_64
    ensures ApplyOps(doc, RemovalOps(ToText(p), lo, |x|)) == Ok(Put(doc, p, Array(x[..lo])))
    decreases |x|
  {
    hide At, Put, ApplyOps, ToText;
    if lo == |x| {
      assert x[..lo] == x;
      ApplyNone(doc, p);
    } else {
      var hi := |x| - 1;
      IndexPath(p, hi);
      ArrayIndexOfText(hi);
      assert x[..hi] + x[hi + 1..] == x[..hi];
      ApplyRemove(doc, p, IndexText(hi));
      var next := Put(doc, p, Array(x[..hi]));
      AtPut(doc, p, Array(x[..hi]));
      RemovalPhase(next, p, x[..hi], lo);
      assert x[..hi][..lo] == x[..lo];
      ThenPut(doc, p, [RemoveOp(ToText(p) + "/" + IndexText(hi))], Array(x[..hi]),
              RemovalOps(ToText(p), lo, hi), Array(x[..lo]));
    }
  }

  /** The appends add their values at the end of the array at `p`. */
  lemma {:induction false} AppendPhase(doc: Json, p: seq<string>, x: seq<Json>, items: seq<Json>)
    requires At(doc, p) == Ok(Array(x))
    ensures ApplyOps(doc, AppendOps(ToText(p), items)) == Ok(Put(doc, p, Array(x + items)))
    decreases |items|
  {
    hide At, Put, ApplyOps, ToText;
    if items == [] {
      assert x + items == x;
      ApplyNone(doc, p);
    } else {
      var front, v := items[..|items| - 1], items[|items| - 1];
      AppendPhase(doc, p, x, front);
      var y := x + front;
      AtPut(doc, p, Array(y));
      AppendStep(Put(doc, p, Array(y)), p, y, v);
      assert y + [v] == x + items;
      ThenPut(doc, p, AppendOps(ToText(p), front), Array(y), [AddOp(ToText(p) + "/-", v)], Array(y + [v]));
    }
  }

  lemma AppendStep(doc: Json, p: seq<string>, y: seq<Json>, v: Json)
    requires At(doc, p) == Ok(Array(y))
    ensures ApplyOps(doc, [AddOp(ToText(p) + "/-", v)]) == Ok(Put(doc, p, Array(y + [v])))
  {
    AppendPath(p);
    ApplyAdd(doc, p, "-", v);
  }

  /** The array after its first `n` elements have been patched. */
  function Partly(s: Json, t: Json, n: nat): (x: seq<Json>)
    requires s.Array? && t.Array? && n <= |s.items| && n <= |t.items|
    ensures |x| == |s.items|
  {
    seq(|s.items|, i requires 0 <= i < |s.items| => if i < n then Reached(s.items[i], t.items[i]) else s.items[i])
  }

  lemma NothingDone(s: Json, t: Json)
    requires s.Array? && t.Array?
    ensures Array(Partly(s, t, 0)) == s
  {
    assert Partly(s, t, 0) == s.items;
  }

  lemma PartlyStep(s: Json, t: Json, i: nat)
    requires s.Array? && t.Array? && i < |s.items| && i < |t.items|
    ensures Partly(s, t, i)[i] == s.items[i]
    ensures Partly(s, t, i + 1) == Partly(s, t, i)[i := Reached(s.items[i], t.items[i])]
  {
  }

  lemma {:induction false} ElementPhase(doc: Json, p: seq<string>, s: Json, t: Json, n: nat)
    requires s.Array? && t.Array? && n <= |s.items| && n <= |t.items|
    requires At(doc, p) == Ok(s) && Sized(s) && Sized(t)
    ensures ApplyOps(doc, ElementOps(s, t, n, ToText(p))) == Ok(Put(doc, p, Array(Partly(s, t, n))))
    decreases s, 0, n
  {
    hide At, Put, ApplyOps, ToText, Reached, Partly, Sized, DiffOps, IndexText, LibEq;
    if n == 0 {
      NothingDone(s, t);
      ApplyNone(doc, p);
    } else {
      var i := n - 1;
      ElementPhase(doc, p, s, t, i);
      var x, y := Partly(s, t, i), Partly(s, t, n);
      PartlyStep(s, t, i);
      AtPut(doc, p, Array(x));
      ElementStep(Put(doc, p, Array(x)), p, s, t, x, i);
      ThenPut(doc, p, ElementOps(s, t, i, ToText(p)), Array(x),
              DiffOps(s.items[i], t.items[i], ToText(p) + "/" + IndexText(i)), Array(y));
    }
  }

  /** One turn of the first loop changes one element of the array at `p`. */
  lemma {:induction false} ElementStep(doc: Json, p: seq<string>, s: Json, t: Json, x: seq<Json>, i: nat)
    requires s.Array? && t.Array? && i < |s.items| && i < |t.items| && Sized(s) && Sized(t)
    requires At(doc, p) == Ok(Array(x)) && |x| == |s.items| && x[i] == s.items[i]
    ensures ApplyOps(doc, DiffOps(s.items[i], t.items[i], ToText(p) + "/" + IndexText(i))) ==
            Ok(Put(doc, p, Array(x[i := Reached(s.items[i], t.items[i])])))
    decreases s, 0, 0
  {
    IndexPath(p, i);
    PutElement(doc, p, x, i, Reached(s.items[i], t.items[i]));
    DiffApplies(doc, p + [IndexText(i)], s.items[i], t.items[i]);
  }

  lemma IndexIsNotDash(i: nat)
    ensures IndexText(i) != "-"
  {
    assert IsDigit(IndexText(i)[0]);
  }

  /** Putting at an element of an array is putting a changed array. */
  lemma PutElement(doc: Json, p: seq<string>, x: seq<Json>, i: nat, v: Json)
    requires At(doc, p) == Ok(Array(x)) && i < |x| && i < TWO_64 - 1
    ensures At(doc, p + [IndexText(i)]) == Ok(x[i])
    ensures Put(doc, p + [IndexText(i)], v) == Put(doc, p, Array(x[i := v]))
  {
    ArrayIndexOfText(i);
    IndexIsNotDash(i);
    AtStep(doc, p, IndexText(i));
    PutConcat(doc, p, [IndexText(i)], v);
    assert Put(x[i], [], v) == v;
    assert [IndexText(i)][1..] == [];
  }

  // ----- objects -------------------------------------------------------------

  /** The object after the source keys in `done` have been dealt with. */
  function KeysDone(s: Json, t: Json, done: seq<string>): map<string, Json>
    requires s.Object? && t.Object?
  {
    map k | k in s.members && (k in done ==> k in t.members) ::
      if k in done then Reached(s.members[k], t.members[k]) else s.members[k]
  }

  lemma {:induction false} SourceKeyPhase(doc: Json, p: seq<string>, s: Json, t: Json, keys: seq<string>, n: nat)
    requires s.Object? && t.Object? && n <= |keys| && Sorted(keys) && forall k | k in keys :: k in s.members
    requires At(doc, p) == Ok(s) && Sized(s) && Sized(t)
    ensures ApplyOps(doc, SourceKeyOps(s, t, keys, n, ToText(p))) == Ok(Put(doc, p, Object(KeysDone(s, t, keys[..n]))))
    decreases s, 0, n
  {
    hide At, Put, ApplyOps, ToText, Reached, Less, Escaped, KeysDone, Sized;
    if n == 0 {
      NoKeysDone(s, t, keys);
      ApplyNone(doc, p);
    } else {
      var i, k := n - 1, keys[n - 1];
      SourceKeyPhase(doc, p, s, t, keys, i);
      var x, y := KeysDone(s, t, keys[..i]), KeysDone(s, t, keys[..n]);
      KeysDoneStep(s, t, keys, i);
      AtPut(doc, p, Object(x));
      SourceKeyStep(Put(doc, p, Object(x)), p, s, t, x, k);
      ThenPut(doc, p, SourceKeyOps(s, t, keys, i, ToText(p)), Object(x), OneKeyOps(s, t, k, ToText(p)), Object(y));
    }
  }

  lemma NoKeysDone(s: Json, t: Json, keys: seq<string>)
    requires s.Object? && t.Object?
    ensures Object(KeysDone(s, t, keys[..0])) == s
  {
    assert KeysDone(s, t, keys[..0]) == s.members;
  }

  lemma KeysDoneStep(s: Json, t: Json, keys: seq<string>, i: nat)
    requires s.Object? && t.Object? && i < |keys| && Sorted(keys) && keys[i] in s.members
    ensures var x, y, k := KeysDone(s, t, keys[..i]), KeysDone(s, t, keys[..i + 1]), keys[i];
            && k in x && x[k] == s.members[k]
            && y == if k in t.members then x[k := Reached(s.members[k], t.members[k])] else x - {k}
  {
    KeysGrow(keys, i);
  }

  /** One turn of the first pass changes one key of the object at `p`. */
  lemma {:induction false} SourceKeyStep(doc: Json, p: seq<string>, s: Json, t: Json, x: map<string, Json>, k: string)
    requires s.Object? && t.Object? && k in s.members && Sized(s) && Sized(t)
    requires At(doc, p) == Ok(Object(x)) && k in x && x[k] == s.members[k]
    ensures ApplyOps(doc, OneKeyOps(s, t, k, ToText(p))) ==
            Ok(Put(doc, p, Object(if k in t.members then x[k := Reached(s.members[k], t.members[k])] else x - {k})))
    decreases s, 0, 0
  {
    hide ApplyOps, Put, At, Reached, DiffOps, ToText, Escaped, RemoveOp;
    KeyPath(p, k);
    if k in t.members {
      var v := Reached(s.members[k], t.members[k]);
      AtStep(doc, p, k);
      DiffApplies(doc, p + [k], s.members[k], t.members[k]);
      PutMember(doc, p, x, k, v);
    } else {
      ApplyRemove(doc, p, k);
    }
  }

  /** Putting at a member of an object is putting a changed object. */
  lemma PutMember(doc: Json, p: seq<string>, x: map<string, Json>, k: string, v: Json)
    requires At(doc, p) == Ok(Object(x)) && k in x
    ensures At(doc, p + [k]) == Ok(x[k])
    ensures Put(doc, p + [k], v) == Put(doc, p, Object(x[k := v]))
  {
    AtStep(doc, p, k);
    PutConcat(doc, p, [k], v);
    assert [k][1..] == [] && Put(x[k], [], v) == v;
  }

  /** The object after the target keys in `done` have been added where they were missing. */
  function KeysAdded(s: Json, t: Json, x: map<string, Json>, done: seq<string>): map<string, Json>
    requires s.Object? && t.Object? && forall k | k in done :: k in t.members
  {
    map k | k in x.Keys + (set k | k in done && k !in s.members) ::
      if k in done && k !in s.members then t.members[k] else x[k]
  }

  lemma NoKeysAdded(s: Json, t: Json, x: map<string, Json>, keys: seq<string>)
    requires s.Object? && t.Object? && forall k | k in keys :: k in t.members
    ensures KeysAdded(s, t, x, keys[..0]) == x
  {
  }

  lemma KeysAddedStep(s: Json, t: Json, x: map<string, Json>, keys: seq<string>, i: nat)
    requires s.Object? && t.Object? && i < |keys| && Sorted(keys) && forall k | k in keys :: k in t.members
    requires x.Keys <= s.members.Keys
    ensures forall k | k in keys[..i] || k in keys[..i + 1] :: k in keys
    ensures var a, b, k := KeysAdded(s, t, x, keys[..i]), KeysAdded(s, t, x, keys[..i + 1]), keys[i];
            b == if k in s.members then a else a[k := t.members[k]]
  {
    KeysGrow(keys, i);
  }

  /** One turn of the second pass adds at most one key to the object at `p`. */
  lemma TargetKeyStep(doc: Json, p: seq<string>, s: Json, a: map<string, Json>, k: string, v: Json)
    requires s.Object? && At(doc, p) == Ok(Object(a))
    ensures ApplyOps(doc, if k in s.members then [] else [AddOp(ToText(p) + "/" + Escaped(k), v)]) ==
            Ok(Put(doc, p, Object(if k in s.members then a else a[k := v])))
  {
    hide ApplyOps, ToText, Escaped, Put;
    if k in s.members {
      ApplyNone(doc, p);
    } else {
      KeyPath(p, k);
      ApplyAdd(doc, p, k, v);
    }
  }

  lemma {:induction false} TargetKeyPhase(doc: Json, p: seq<string>, s: Json, t: Json, x: map<string, Json>,
                                          keys: seq<string>, n: nat)
    requires s.Object? && t.Object? && n <= |keys| && Sorted(keys) && forall k | k in keys :: k in t.members
    requires At(doc, p) == Ok(Object(x)) && x.Keys <= s.members.Keys
    ensures ApplyOps(doc, TargetKeyOps(s, t, keys, n, ToText(p))) ==
            Ok(Put(doc, p, Object(KeysAdded(s, t, x, keys[..n]))))
    decreases n
  {
    hide At, Put, ApplyOps, ToText, Less, Escaped, KeysAdded;
    if n == 0 {
      NoKeysAdded(s, t, x, keys);
      ApplyNone(doc, p);
    } else {
      var i, k := n - 1, keys[n - 1];
      TargetKeyPhase(doc, p, s, t, x, keys, i);
      KeysAddedStep(s, t, x, keys, i);
      var a, b := KeysAdded(s, t, x, keys[..i]), KeysAdded(s, t, x, keys[..n]);
      AtPut(doc, p, Object(a));
      var mid := Put(doc, p, Object(a));
      var op := if k in s.members then [] else [AddOp(ToText(p) + "/" + Escaped(k), t.members[k])];
      TargetKeyStep(mid, p, s, a, k, t.members[k]);
      ThenPut(doc, p, TargetKeyOps(s, t, keys, i, ToText(p)), Object(a), op, Object(b));
    }
  }

  // ----- the round trip ------------------------------------------------------

  /** Applied to any document that holds `s` at path `p`, the difference of `s` and `t`
      replaces that value by the reached one and changes nothing else. */
  lemma {:induction false} DiffApplies(doc: Json, p: seq<string>, s: Json, t: Json)
    requires At(doc, p) == Ok(s) && Sized(s) && Sized(t)
    ensures ApplyOps(doc, DiffOps(s, t, ToText(p))) == Ok(Put(doc, p, Reached(s, t)))
    decreases s, 1, 0
  {
    if LibEq(s, t) {
      PutSame(doc, p);
    } else if s.Array? && t.Array? {
      DiffAppliesToArray(doc, p, s, t);
    } else if s.Object? && t.Object? {
      DiffAppliesToObject(doc, p, s, t);
    } else {
      ApplyReplace(doc, p, t);
    }
  }

  lemma ArrayReached(s: Json, t: Json, n: nat)
    requires s.Array? && t.Array? && !LibEq(s, t)
    requires n == if |s.items| < |t.items| then |s.items| else |t.items|
    ensures Array(Partly(s, t, n)[..n] + t.items[n..]) == Reached(s, t)
  {
    assert Partly(s, t, n)[..n] + t.items[n..] == Reached(s, t).items;
  }

  lemma {:induction false} DiffAppliesToArray(doc: Json, p: seq<string>, s: Json, t: Json)
    requires s.Array? && t.Array? && !LibEq(s, t)
    requires At(doc, p) == Ok(s) && Sized(s) && Sized(t)
    ensures ApplyOps(doc, DiffOps(s, t, ToText(p))) == Ok(Put(doc, p, Reached(s, t)))
    decreases s, 0, |s.items| + 1
  {
    var path, n := ToText(p), if |s.items| < |t.items| then |s.items| else |t.items|;
    var x := Partly(s, t, n);
    var ops := ElementOps(s, t, n, path);
    ElementPhase(doc, p, s, t, n);
    ArrayReached(s, t, n);
    ShortenAndAppend(doc, p, ops, x, n, t.items[n..]);
  }

  /** The last two phases of the array case, behind any operations that left `x` at `p`. */
  lemma {:induction false} ShortenAndAppend(doc: Json, p: seq<string>, ops: seq<Json>, x: seq<Json>, n: nat,
                                            more: seq<Json>)
    requires At(doc, p).Ok? && ApplyOps(doc, ops) == Ok(Put(doc, p, Array(x))) && n <= |x| < TWO_64
    ensures ApplyOps(doc, ops + RemovalOps(ToText(p), n, |x|) + AppendOps(ToText(p), more)) ==
            Ok(Put(doc, p, Array(x[..n] + more)))
  {
    var path, y := ToText(p), x[..n];
    AtPut(doc, p, Array(x));
    RemovalPhase(Put(doc, p, Array(x)), p, x, n);
    ThenPut(doc, p, ops, Array(x), RemovalOps(path, n, |x|), Array(y));
    AtPut(doc, p, Array(y));
    AppendPhase(Put(doc, p, Array(y)), p, y, more);
    ThenPut(doc, p, ops + RemovalOps(path, n, |x|), Array(y), AppendOps(path, more), Array(y + more));
  }

  lemma {:induction false} DiffAppliesToObject(doc: Json, p: seq<string>, s: Json, t: Json)
    requires s.Object? && t.Object? && !LibEq(s, t)
    requires At(doc, p) == Ok(s) && Sized(s) && Sized(t)
    ensures ApplyOps(doc, DiffOps(s, t, ToText(p))) == Ok(Put(doc, p, Reached(s, t)))
    decreases s, 0, |s.members| + 1
  {
    hide LibEq, DiffOps, SourceKeyOps, TargetKeyOps, KeysAdded, SortedKeys, ApplyOps, Put, ToText, Reached;
    var path := ToText(p);
    ObjectOps(s, t, path);
    var sk, tk := SortedKeys(s.members.Keys), SortedKeys(t.members.Keys);
    assert sk[..|sk|] == sk && tk[..|tk|] == tk;
    var x := KeysDone(s, t, sk);
    SourceKeyPhase(doc, p, s, t, sk, |sk|);
    AtPut(doc, p, Object(x));
    TargetKeyPhase(Put(doc, p, Object(x)), p, s, t, x, tk, |tk|);
    AllKeysDone(s, t, sk, tk);
    ThenPut(doc, p, SourceKeyOps(s, t, sk, |sk|, path), Object(x), TargetKeyOps(s, t, tk, |tk|, path), Reached(s, t));
  }

  lemma AllKeysDone(s: Json, t: Json, sk: seq<string>, tk: seq<string>)
    requires s.Object? && t.Object? && !LibEq(s, t)
    requires forall k :: k in sk <==> k in s.members
    requires forall k :: k in tk <==> k in t.members
    ensures Object(KeysAdded(s, t, KeysDone(s, t, sk), tk)) == Reached(s, t)
  {
    hide LibEq, Reached;
    ReachedMembers(s, t);
    var x, r := KeysDone(s, t, sk), Reached(s, t).members;
    var y := KeysAdded(s, t, x, tk);
    assert y.Keys == t.members.Keys;
    forall k | k in t.members ensures y[k] == r[k] {
      if k in s.members { assert k in x; }
    }
    assert y == r;
  }

  lemma ReachedMembers(s: Json, t: Json)
    requires s.Object? && t.Object? && !LibEq(s, t)
    ensures Reached(s, t).Object? && Reached(s, t).members.Keys == t.members.Keys
    ensures forall k | k in t.members ::
              Reached(s, t).members[k] ==
              if k in s.members then Reached(s.members[k], t.members[k]) else t.members[k]
  {
    hide LibEq;
  }

  /** The law of JSON Patch: for all values, patching with the difference succeeds, and the
      result equals the target exactly when the target holds no NaN and no discarded value. */
  lemma PatchOfDiff(s: Json, t: Json)
    requires Sized(s) && Sized(t)
    ensures ApplyOps(s, DiffOps(s, t, "")).Ok?
    ensures LibEq(ApplyOps(s, DiffOps(s, t, "")).value, t) <==> Clean(t)
  {
    DiffApplies(s, [], s, t);
    ReachedEqualsTarget(s, t);
  }

  /** The same law for the two loops: `diff` run on any two values, and `patch` run on its result. */
  method DiffThenPatch(source: Json, target: Json) returns (patched: Result<Json>)
    requires Sized(source) && Sized(target)
    ensures patched.Ok? && (LibEq(patched.value, target) <==> Clean(target))
  {
    var ops := ComputeDiff(source, target, "");
    PatchOfDiff(source, target);
    patched := ApplyPatch(source, Array(ops));
  }
}
