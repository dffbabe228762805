/**
 `diff`: the operations that lead from one value to another.
 */
module Diff {
  import opened JsonValue
  import opened JsonPointer
  import opened StringEscape
  import opened TextOrder
  import opened Patch

  /** The difference of the elements both arrays have, up to index `n`. */
  function ElementOps(s: Json, t: Json, n: nat, path: string): seq<Json>
    requires s.Array? && t.Array? && n <= |s.items| && n <= |t.items|
    decreases s, 0, n
  {
    if n == 0 then [] else
      ElementOps(s, t, n - 1, path) + DiffOps(s.items[n - 1], t.items[n - 1], path + "/" + IndexText(n - 1))
  }

  /** Removals from the back: indices `hi - 1` down to `lo`. */
  function RemovalOps(path: string, lo: nat, hi: nat): seq<Json>
    decreases hi
  {
    if lo >= hi then [] else [RemoveOp(path + "/" + IndexText(hi - 1))] + RemovalOps(path, lo, hi - 1)
  }

  function AppendOps(path: string, items: seq<Json>): seq<Json> {
    if items == [] then []
    else AppendOps(path, items[..|items| - 1]) + [AddOp(path + "/-", items[|items| - 1])]
  }

  /** First pass over an object: the first `n` keys of the source. */
  function SourceKeyOps(s: Json, t: Json, keys: seq<string>, n: nat, path: string): seq<Json>
    requires s.Object? && t.Object? && n <= |keys| && forall k | k in keys :: k in s.members
    decreases s, 0, n
  {
    if n == 0 then [] else
      SourceKeyOps(s, t, keys, n - 1, path) + OneKeyOps(s, t, keys[n - 1], path)
  }

  /** What the first pass emits for one key. */
  function OneKeyOps(s: Json, t: Json, k: string, path: string): seq<Json>
    requires s.Object? && t.Object? && k in s.members
    decreases s, 0, 0
  {
    if k in t.members then DiffOps(s.members[k], t.members[k], path + "/" + Escaped(k))
    else [RemoveOp(path + "/" + Escaped(k))]
  }

  /** Second pass: the first `n` keys of the target. */
  function TargetKeyOps(s: Json, t: Json, keys: seq<string>, n: nat, path: string): seq<Json>
    requires s.Object? && t.Object? && n <= |keys| && forall k | k in keys :: k in t.members
  {
    if n == 0 then [] else
      var k := keys[n - 1];
      TargetKeyOps(s, t, keys, n - 1, path) +
      if k in s.members then [] else [AddOp(path + "/" + Escaped(k), t.members[k])]
  }

  /** The operations `diff` emits. */
  function DiffOps(s: Json, t: Json, path: string): seq<Json>
    decreases s, 1, 0
  {
    if LibEq(s, t) then []
    else if !SameType(s, t) then [ReplaceOp(path, t)]
    else if s.Array? then
      var n := if |s.items| < |t.items| then |s.items| else |t.items|;
      ElementOps(s, t, n, path) + RemovalOps(path, n, |s.items|) + AppendOps(path, t.items[n..])
    else if s.Object? then
      var sk, tk := SortedKeys(s.members.Keys), SortedKeys(t.members.Keys);
      SourceKeyOps(s, t, sk, |sk|, path) + TargetKeyOps(s, t, tk, |tk|, path)
    else [ReplaceOp(path, t)]
  }

  /** `diff`. */
  method ComputeDiff(source: Json, target: Json, path: string) returns (result: seq<Json>)
    ensures result == DiffOps(source, target, path)
    decreases source, 2
  {
    if LibEq(source, target) {
      result := [];
    } else if !SameType(source, target) {
      result := [ReplaceOp(path, target)];
    } else if source.Array? {
      result := DiffArrays(source, target, path);
    } else if source.Object? {
      result := DiffObjects(source, target, path);
    } else {
      result := [ReplaceOp(path, target)];
    }
  }

  /** The array case of `diff`: three loops append to one result; the second inserts each
      removal at a fixed position, so that the removals come out in reverse order. */
  method DiffArrays(source: Json, target: Json, path: string) returns (result: seq<Json>)
    requires source.Array? && target.Array?
    ensures var n := if |source.items| < |target.items| then |source.items| else |target.items|;
            result == ElementOps(source, target, n, path) + RemovalOps(path, n, |source.items|)
                      + AppendOps(path, target.items[n..])
    decreases source, 1
  {
    hide ElementOps, RemovalOps, AppendOps;
    var a, b := source.items, target.items;
    var i;
    i, result := DiffElements(source, target, path);
    NothingLeft(path, |a|);
    if i < |a| {
      result := InsertRemovals(result, path, i, |a|);
      assert b[i..] == [];
    } else {
      var added := AppendRest(path, b, i);
      result := result + added;
    }
  }

  /** The first loop of the array case: the elements that both arrays have. */
  method DiffElements(source: Json, target: Json, path: string) returns (i: nat, result: seq<Json>)
    requires source.Array? && target.Array?
    ensures i == if |source.items| < |target.items| then |source.items| else |target.items|
    ensures result == ElementOps(source, target, i, path)
    decreases source, 0
  {
    hide DiffOps, IndexText;
    var a, b := source.items, target.items;
    result := [];
    i := 0;
    while i < |a| && i < |b|
      invariant 0 <= i <= |a| && i <= |b|
      invariant result == ElementOps(source, target, i, path)
    {
      var temp := ComputeDiff(a[i], b[i], path + "/" + IndexText(i));
      result := result + temp;
      i := i + 1;
    }
  }

  lemma NothingLeft(path: string, n: nat)
    ensures RemovalOps(path, n, n) == [] && AppendOps(path, []) == []
  {
  }

  /** The second loop of the array case, where the source is the longer array. */
  method InsertRemovals(common: seq<Json>, path: string, n: nat, size: nat) returns (result: seq<Json>)
    requires n <= size
    ensures result == common + RemovalOps(path, n, size)
  {
    result := common;
    var end := |result|;
    var i := n;
    while i < size
      invariant n <= i <= size
      invariant result == common + RemovalOps(path, n, i)
    {
      InsertAt(common, RemovalOps(path, n, i), RemoveOp(path + "/" + IndexText(i)));
      result := result[..end] + [RemoveOp(path + "/" + IndexText(i))] + result[end..];
      i := i + 1;
    }
  }

  /** The third loop of the array case, where the source is not the longer array. */
  method AppendRest(path: string, b: seq<Json>, n: nat) returns (result: seq<Json>)
    requires n <= |b|
    ensures result == AppendOps(path, b[n..])
  {
    result := [];
    var i := n;
    assert b[n..n] == [];
    while i < |b|
      invariant n <= i <= |b|
      invariant result == AppendOps(path, b[n..i])
    {
      AppendOne(path, b, n, i);
      result := result + [AddOp(path + "/-", b[i])];
      i := i + 1;
    }
    assert b[n..i] == b[n..];
  }

  lemma InsertAt(front: seq<Json>, back: seq<Json>, x: Json)
    ensures var all := front + back;
            all[..|front|] + [x] + all[|front|..] == front + ([x] + back)
  {
  }

  lemma AppendOne(path: string, b: seq<Json>, n: nat, i: nat)
    requires n <= i < |b|
    ensures AppendOps(path, b[n..i + 1]) == AppendOps(path, b[n..i]) + [AddOp(path + "/-", b[i])]
  {
    assert b[n..i + 1][..i - n] == b[n..i];
  }

  /** The object case of `diff`: one loop over each object, in key order. */
  method DiffObjects(source: Json, target: Json, path: string) returns (result: seq<Json>)
    requires source.Object? && target.Object?
    ensures var sk, tk := SortedKeys(source.members.Keys), SortedKeys(target.members.Keys);
            result == SourceKeyOps(source, target, sk, |sk|, path) + TargetKeyOps(source, target, tk, |tk|, path)
    decreases source, 0
  {
    var sk := SortedKeys(source.members.Keys);
    result := [];
    for i := 0 to |sk|
      invariant result == SourceKeyOps(source, target, sk, i, path)
    {
      var k := sk[i];
      assert k in sk;
      var key := Escape(k);
      if k in target.members {
        var temp := ComputeDiff(source.members[k], target.members[k], path + "/" + key);
        result := result + temp;
      } else {
        result := result + [RemoveOp(path + "/" + key)];
      }
    }
    var added := AddedKeys(source, target, path);
    result := result + added;
  }

  /** The second loop of the object case. */
  method AddedKeys(source: Json, target: Json, path: string) returns (result: seq<Json>)
    requires source.Object? && target.Object?
    ensures var tk := SortedKeys(target.members.Keys); result == TargetKeyOps(source, target, tk, |tk|, path)
  {
    hide Escaped, SortedKeys, AddOp;
    var tk := SortedKeys(target.members.Keys);
    result := [];
    for i := 0 to |tk|
      invariant result == TargetKeyOps(source, target, tk, i, path)
    {
      var k := tk[i];
      assert k in tk;
      if k !in source.members {
        var key := Escape(k);
        result := result + [AddOp(path + "/" + key, target.members[k])];
      }
    }
  }

  // ----- how much is emitted -----------------------------------------------------

  /** Nothing is emitted exactly for equal values. */
  lemma {:induction false} NoOpsIfEqual(s: Json, t: Json, path: string)
    ensures DiffOps(s, t, path) == [] <==> LibEq(s, t)
    decreases s, 1
  {
    hide LibEq, ReplaceOp, ElementOps, SourceKeyOps, TargetKeyOps, RemovalOps, AppendOps, SortedKeys;
    if !LibEq(s, t) && s.Array? && t.Array? {
      SomeElementOp(s, t, path);
    } else if !LibEq(s, t) && s.Object? && t.Object? {
      SomeMemberOp(s, t, path);
    }
  }

  lemma {:induction false} SomeElementOp(s: Json, t: Json, path: string)
    requires s.Array? && t.Array? && !LibEq(s, t)
    ensures DiffOps(s, t, path) != []
    decreases s, 0
  {
    hide IndexText;
    var n := if |s.items| < |t.items| then |s.items| else |t.items|;
    if |s.items| == |t.items| {
      var i :| 0 <= i < n && !LibEq(s.items[i], t.items[i]);
      NoOpsIfEqual(s.items[i], t.items[i], path + "/" + IndexText(i));
      ElementOpsKept(s, t, i, n, path);
    }
  }

  lemma {:induction false} SomeMemberOp(s: Json, t: Json, path: string)
    requires s.Object? && t.Object? && !LibEq(s, t)
    ensures DiffOps(s, t, path) != []
    decreases s, 0
  {
    hide Escaped, SortedKeys, ElementOps, DiffOps, SourceKeyOps, TargetKeyOps, LibEq;
    ObjectOps(s, t, path);
    if k :| k in s.members && k !in t.members {
      SourceKeyEmits(s, t, k, path);
    } else if k :| k in t.members && k !in s.members {
      TargetKeyEmits(s, t, k, path);
    } else {
      assert s.members.Keys == t.members.Keys;
      var k := SomeUnequal(s, t);
      NoOpsIfEqual(s.members[k], t.members[k], path + "/" + Escaped(k));
      SourceKeyEmits(s, t, k, path);
    }
  }

  lemma SomeUnequal(s: Json, t: Json) returns (k: string)
    requires s.Object? && t.Object? && s.members.Keys == t.members.Keys && !LibEq(s, t)
    ensures k in s.members && k in t.members && !LibEq(s.members[k], t.members[k])
  {
    k :| k in s.members && !LibEq(s.members[k], t.members[k]);
  }

  lemma ObjectOps(s: Json, t: Json, path: string)
    requires s.Object? && t.Object? && !LibEq(s, t)
    ensures var sk, tk := SortedKeys(s.members.Keys), SortedKeys(t.members.Keys);
            DiffOps(s, t, path) == SourceKeyOps(s, t, sk, |sk|, path) + TargetKeyOps(s, t, tk, |tk|, path)
  {
    hide SortedKeys, SourceKeyOps, TargetKeyOps;
  }

  lemma SourceKeyEmits(s: Json, t: Json, k: string, path: string)
    requires s.Object? && t.Object? && k in s.members
    requires k in t.members ==> DiffOps(s.members[k], t.members[k], path + "/" + Escaped(k)) != []
    ensures var sk := SortedKeys(s.members.Keys); SourceKeyOps(s, t, sk, |sk|, path) != []
  {
    hide Escaped, SortedKeys, DiffOps, SourceKeyOps;
    var sk := SortedKeys(s.members.Keys);
    var i :| 0 <= i < |sk| && sk[i] == k;
    SourceKeyOpsKept(s, t, sk, i, |sk|, path);
  }

  lemma TargetKeyEmits(s: Json, t: Json, k: string, path: string)
    requires s.Object? && t.Object? && k in t.members && k !in s.members
    ensures var tk := SortedKeys(t.members.Keys); TargetKeyOps(s, t, tk, |tk|, path) != []
  {
    hide SortedKeys, TargetKeyOps;
    var tk := SortedKeys(t.members.Keys);
    var i :| 0 <= i < |tk| && tk[i] == k;
    TargetKeyOpsKept(s, t, tk, i, |tk|, path);
  }

  lemma {:induction false} ElementOpsKept(s: Json, t: Json, i: nat, n: nat, path: string)
    requires s.Array? && t.Array? && i < n <= |s.items| && n <= |t.items|
    ensures ElementOps(s, t, n, path) == [] ==> DiffOps(s.items[i], t.items[i], path + "/" + IndexText(i)) == []
    decreases n
  {
    if i < n - 1 { ElementOpsKept(s, t, i, n - 1, path); }
  }

  lemma {:induction false} SourceKeyOpsKept(s: Json, t: Json, keys: seq<string>, i: nat, n: nat, path: string)
    requires s.Object? && t.Object? && i < n <= |keys| && forall k | k in keys :: k in s.members
    ensures SourceKeyOps(s, t, keys, n, path) == [] ==>
              keys[i] in t.members &&
              DiffOps(s.members[keys[i]], t.members[keys[i]], path + "/" + Escaped(keys[i])) == []
    decreases n
  {
    hide DiffOps, Escaped;
    if i < n - 1 {
      SourceKeyOpsKept(s, t, keys, i, n - 1, path);
    } else {
      OneKeyIs(s, t, keys[i], path);
    }
  }

  lemma OneKeyIs(s: Json, t: Json, k: string, path: string)
    requires s.Object? && t.Object? && k in s.members
    ensures k in t.members ==> OneKeyOps(s, t, k, path) == DiffOps(s.members[k], t.members[k], path + "/" + Escaped(k))
    ensures k !in t.members ==> |OneKeyOps(s, t, k, path)| == 1
  {
    hide DiffOps, Escaped;
  }

  lemma {:induction false} TargetKeyOpsKept(s: Json, t: Json, keys: seq<string>, i: nat, n: nat, path: string)
    requires s.Object? && t.Object? && i < n <= |keys| && forall k | k in keys :: k in t.members
    requires keys[i] !in s.members
    ensures TargetKeyOps(s, t, keys, n, path) != []
    decreases n
  {
    hide Escaped, AddOp;
    if i < n - 1 { TargetKeyOpsKept(s, t, keys, i, n - 1, path); }
  }

  /** All operations work strictly below the path. */
  predicate Below(ops: seq<Json>, path: string) {
    forall i | 0 <= i < |ops| :: OpBelow(ops[i], path)
  }

  predicate OpBelow(op: Json, path: string) {
    op.Object? && "path" in op.members && op.members["path"].String? && path + "/" <= op.members["path"].s
  }

  /** Between two arrays or two objects `diff` never replaces the whole: every operation works
      on something inside. */
  lemma {:induction false} OpsStayBelow(s: Json, t: Json, path: string)
    requires (s.Array? && t.Array?) || (s.Object? && t.Object?)
    ensures Below(DiffOps(s, t, path), path)
    decreases s, 1, 0
  {
    hide ElementOps, SourceKeyOps, TargetKeyOps, RemovalOps, AppendOps, OpBelow, SortedKeys;
    if s.Array? {
      var n := if |s.items| < |t.items| then |s.items| else |t.items|;
      ElementOpsBelow(s, t, n, path);
      RemovalOpsBelow(path, n, |s.items|);
      AppendOpsBelow(path, t.items[n..]);
    } else {
      var sk, tk := SortedKeys(s.members.Keys), SortedKeys(t.members.Keys);
      SourceKeyOpsBelow(s, t, sk, |sk|, path);
      TargetKeyOpsBelow(s, t, tk, |tk|, path);
    }
  }

  /** Whatever `diff` emits for a child works below the parent. */
  lemma {:induction false} ChildOpsBelow(s: Json, t: Json, path: string, token: string)
    ensures Below(DiffOps(s, t, path + "/" + token), path)
    decreases s, 2, 0
  {
    hide OpBelow, ReplaceOp, LibEq, ElementOps, SourceKeyOps, TargetKeyOps, RemovalOps, AppendOps, SortedKeys;
    var inner := path + "/" + token;
    if (s.Array? && t.Array?) || (s.Object? && t.Object?) {
      OpsStayBelow(s, t, inner);
      BelowDeeper(DiffOps(s, t, inner), path, token);
    } else {
      ReplaceBelow(path, token, t);
    }
  }

  lemma ReplaceBelow(path: string, token: string, t: Json)
    ensures OpBelow(ReplaceOp(path + "/" + token, t), path)
  {
    assert path + "/" <= path + "/" + token;
  }

  lemma BelowDeeper(ops: seq<Json>, path: string, token: string)
    requires Below(ops, path + "/" + token)
    ensures Below(ops, path)
  {
    forall i | 0 <= i < |ops| ensures OpBelow(ops[i], path) {
      assert OpBelow(ops[i], path + "/" + token);
    }
  }

  lemma {:induction false} ElementOpsBelow(s: Json, t: Json, n: nat, path: string)
    requires s.Array? && t.Array? && n <= |s.items| && n <= |t.items|
    ensures Below(ElementOps(s, t, n, path), path)
    decreases s, 0, n
  {
    hide DiffOps, OpBelow;
    if n > 0 {
      ElementOpsBelow(s, t, n - 1, path);
      ChildOpsBelow(s.items[n - 1], t.items[n - 1], path, IndexText(n - 1));
    }
  }

  lemma {:induction false} RemovalOpsBelow(path: string, lo: nat, hi: nat)
    ensures Below(RemovalOps(path, lo, hi), path)
    decreases hi
  {
    if lo < hi { RemovalOpsBelow(path, lo, hi - 1); }
  }

  lemma {:induction false} AppendOpsBelow(path: string, items: seq<Json>)
    ensures Below(AppendOps(path, items), path)
    decreases |items|
  {
    if items != [] { AppendOpsBelow(path, items[..|items| - 1]); }
  }

  lemma {:induction false} SourceKeyOpsBelow(s: Json, t: Json, keys: seq<string>, n: nat, path: string)
    requires s.Object? && t.Object? && n <= |keys| && forall k | k in keys :: k in s.members
    ensures Below(SourceKeyOps(s, t, keys, n, path), path)
    decreases s, 0, n
  {
    hide DiffOps;
    if n > 0 {
      SourceKeyOpsBelow(s, t, keys, n - 1, path);
      var k := keys[n - 1];
      if k in t.members { ChildOpsBelow(s.members[k], t.members[k], path, Escaped(k)); }
    }
  }

  lemma {:induction false} TargetKeyOpsBelow(s: Json, t: Json, keys: seq<string>, n: nat, path: string)
    requires s.Object? && t.Object? && n <= |keys| && forall k | k in keys :: k in t.members
    ensures Below(TargetKeyOps(s, t, keys, n, path), path)
    decreases n
  {
    if n > 0 { TargetKeyOpsBelow(s, t, keys, n - 1, path); }
  }
}
