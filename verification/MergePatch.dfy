/**
 JSON Merge Patch: the in-place loop of the library against the function MergePatch
 of section 2 of RFC 7386.
 */
module MergePatch {
  import opened JsonValue
  import opened TextOrder

  /** The members the patch is merged into: those of the target if it is an object. */
  function Base(target: Json): map<string, Json> {
    if target.Object? then target.members else map[]
  }

  /** MergePatch(Target, Patch): null members of the patch delete, others merge. */
  function Merged(target: Json, patch: Json): Json
    decreases patch
  {
    if !patch.Object? then patch else
      var m, p := Base(target), patch.members;
      Object(map k | k in m.Keys + p.Keys && (k in p ==> !p[k].Null?) ::
               if k in p then Merged(if k in m then m[k] else Null, p[k]) else m[k])
  }

  /** The object after the patch members named in `done` have been merged. */
  function MergedSoFar(target: Json, patch: Json, done: seq<string>): map<string, Json>
    requires patch.Object?
  {
    var m, p := Base(target), patch.members;
    map k | k in m.Keys + (set k | k in done && k in p) && (k in done && k in p ==> !p[k].Null?) ::
      if k in done && k in p then Merged(if k in m then m[k] else Null, p[k]) else m[k]
  }

  /** `merge_patch`: the loop that edits the value member by member. */
  method MergeInto(target: Json, patch: Json) returns (result: Json)
    ensures result == Merged(target, patch)
    decreases patch
  {
    if !patch.Object? {
      return patch;
    }
    var members := if target.Object? then target.members else map[];
    var keys := SortedKeys(patch.members.Keys);
    NothingMerged(target, patch, keys);
    for i := 0 to |keys|
      invariant members == MergedSoFar(target, patch, keys[..i])
    {
      var k := keys[i];
      assert k in keys;
      MergeStep(target, patch, keys, i);
      if patch.members[k].Null? {
        members := members - {k};
      } else {
        // operator[] inserts null under a missing key
        var child := if k in members then members[k] else Null;
        var merged := MergeInto(child, patch.members[k]);
        members := members[k := merged];
      }
    }
    AllMerged(target, patch, keys);
    return Object(members);
  }

  lemma NothingMerged(target: Json, patch: Json, keys: seq<string>)
    requires patch.Object?
    ensures MergedSoFar(target, patch, keys[..0]) == Base(target)
  {
  }

  lemma MergeStep(target: Json, patch: Json, keys: seq<string>, i: nat)
    requires patch.Object? && i < |keys| && Sorted(keys) && keys[i] in patch.members
    ensures var x, y, k := MergedSoFar(target, patch, keys[..i]), MergedSoFar(target, patch, keys[..i + 1]), keys[i];
            var v := patch.members[k];
            && (k in x <==> k in Base(target)) && (k in x ==> x[k] == Base(target)[k])
            && y == if v.Null? then x - {k} else x[k := Merged(if k in x then x[k] else Null, v)]
  {
    hide Merged, MergedSoFar, Less;
    KeysGrow(keys, i);
    var x, y, k := MergedSoFar(target, patch, keys[..i]), MergedSoFar(target, patch, keys[..i + 1]), keys[i];
    var v := patch.members[k];
    MergedMember(target, patch, keys[..i], k);
    MergedMember(target, patch, keys[..i + 1], k);
    var z := if v.Null? then x - {k} else x[k := Merged(if k in x then x[k] else Null, v)];
    forall o ensures (o in y <==> o in z) && (o in y ==> y[o] == z[o]) {
      MergedMember(target, patch, keys[..i], o);
      MergedMember(target, patch, keys[..i + 1], o);
    }
    assert y == z;
  }

  /** One member of the object after the patch members named in `done`. */
  lemma MergedMember(target: Json, patch: Json, done: seq<string>, o: string)
    requires patch.Object?
    ensures var x, m, p := MergedSoFar(target, patch, done), Base(target), patch.members;
            if o in done && o in p then
              && (o in x <==> !p[o].Null?)
              && (o in x ==> x[o] == Merged(if o in m then m[o] else Null, p[o]))
            else (o in x <==> o in m) && (o in x ==> x[o] == m[o])
  {
    hide Merged;
  }

  lemma AllMerged(target: Json, patch: Json, keys: seq<string>)
    requires patch.Object? && forall k :: k in keys <==> k in patch.members
    ensures Object(MergedSoFar(target, patch, keys[..|keys|])) == Merged(target, patch)
  {
    assert keys[..|keys|] == keys;
  }

  // ----- place by place ---------------------------------------------------------------

  /** The value holds `v` at this path of keys. */
  predicate Holds(j: Json, q: seq<string>, v: Json)
    decreases |q|
  {
    if q == [] then j == v
    else j.Object? && q[0] in j.members && Holds(j.members[q[0]], q[1..], v)
  }

  /** What a patch says about a place: nothing; that nothing shall be there; which value shall be
      there; or that an object shall be there, with more about its members. */
  datatype Say = Nothing | Clear | Set(v: Json) | Deeper

  function Says(patch: Json, q: seq<string>): Say
    decreases |q|
  {
    if !patch.Object? then if q == [] then Set(patch) else Clear
    else if q == [] then Deeper
    else if q[0] !in patch.members then Nothing
    else if patch.members[q[0]].Null? then Clear
    else Says(patch.members[q[0]], q[1..])
  }

  /** After a merge every place, however deep, holds what the patch says, and what it held before
      where the patch says nothing. */
  lemma {:induction false} PlaceAfterMerge(target: Json, patch: Json, q: seq<string>, v: Json)
    ensures match Says(patch, q)
            case Nothing => Holds(Merged(target, patch), q, v) <==> Holds(target, q, v)
            case Clear => !Holds(Merged(target, patch), q, v)
            case Set(w) => Holds(Merged(target, patch), q, v) <==> v == w
            case Deeper => Holds(Merged(target, patch), q, v) ==> v.Object?
    decreases |q|
  {
    hide Merged, Base;
    if patch.Object? && q != [] {
      MergedIs(target, patch, q[0]);
      if q[0] in patch.members && !patch.members[q[0]].Null? {
        var child := if q[0] in Base(target) then Base(target)[q[0]] else Null;
        PlaceAfterMerge(child, patch.members[q[0]], q[1..], v);
        NullHoldsNothing(q[1..], v, patch.members[q[0]]);
        BaseIs(target);
      } else {
        BaseIs(target);
      }
    } else {
      MergedWhole(target, patch);
    }
  }

  lemma MergedWhole(target: Json, patch: Json)
    ensures if patch.Object? then Merged(target, patch).Object? else Merged(target, patch) == patch
  {
  }

  lemma BaseIs(target: Json)
    ensures target.Object? ==> Base(target) == target.members
    ensures !target.Object? ==> Base(target) == map[]
  {
  }

  lemma MergedIs(target: Json, patch: Json, k: string)
    requires patch.Object?
    ensures Merged(target, patch).Object?
    ensures var r, m, p := Merged(target, patch).members, Base(target), patch.members;
            if k in p then
              && (k in r <==> !p[k].Null?)
              && (k in r ==> r[k] == Merged(if k in m then m[k] else Null, p[k]))
            else (k in r <==> k in m) && (k in r ==> r[k] == m[k])
  {
    hide Base;
  }

  lemma NullHoldsNothing(q: seq<string>, v: Json, patch: Json)
    ensures Holds(Null, q, v) ==> q == []
    ensures q == [] ==> Says(patch, q) != Nothing
  {
  }

  /** And where an object shall be, there is one. */
  lemma {:induction false} ObjectAfterMerge(target: Json, patch: Json, q: seq<string>)
    requires Says(patch, q) == Deeper
    ensures exists v :: Holds(Merged(target, patch), q, v)
    decreases |q|
  {
    if q == [] {
      assert Holds(Merged(target, patch), q, Merged(target, patch));
    } else {
      var m, p := Base(target), patch.members;
      var child := if q[0] in m then m[q[0]] else Null;
      ObjectAfterMerge(child, p[q[0]], q[1..]);
      var v :| Holds(Merged(child, p[q[0]]), q[1..], v);
      assert Holds(Merged(target, patch), q, v);
    }
  }

  /** Applying a patch twice is applying it once. */
  lemma {:induction false} MergeTwice(target: Json, patch: Json)
    ensures Merged(Merged(target, patch), patch) == Merged(target, patch)
    decreases patch
  {
    if patch.Object? {
      var p := patch.members;
      var once := Merged(target, patch).members;
      var twice := Merged(Merged(target, patch), patch).members;
      forall k | k in once ensures k in twice && twice[k] == once[k] {
        if k in p {
          MergeTwice(if k in Base(target) then Base(target)[k] else Null, p[k]);
        }
      }
      assert twice == once;
    }
  }

  /** No member of the patch is null, at any depth. */
  predicate NoNullMembers(patch: Json) {
    patch.Object? ==> forall k | k in patch.members.Keys :: !patch.members[k].Null? && NoNullMembers(patch.members[k])
  }

  /** Merging into null builds the patch itself exactly when the patch has no null member. */
  lemma {:induction false} MergeIntoNull(patch: Json)
    ensures Merged(Null, patch) == patch <==> NoNullMembers(patch)
    decreases patch
  {
    if patch.Object? {
      var p, r := patch.members, Merged(Null, patch).members;
      forall k | k in p && !p[k].Null? ensures k in r && (r[k] == p[k] <==> NoNullMembers(p[k])) {
        MergeIntoNull(p[k]);
      }
      if NoNullMembers(patch) {
        assert r == p;
      } else {
        var k :| k in p.Keys && !(!p[k].Null? && NoNullMembers(p[k]));
        assert p[k].Null? ==> k !in r;
        assert r != p;
      }
    }
  }

  /** A merge patch from one value to another: null for what goes, the parts that differ. */
  function MergeDiff(source: Json, target: Json): Json
    decreases target
  {
    if !target.Object? then target else
      var m, n := Base(source), target.members;
      Object(map k | k in m.Keys + n.Keys && !(k in m && k in n && m[k] == n[k]) ::
               if k in n then MergeDiff(if k in m then m[k] else Null, n[k]) else Null)
  }

  /** Null members of the target, at any depth, are null in the source already. */
  predicate CanReach(source: Json, target: Json)
    decreases target
  {
    target.Object? ==>
      var m, n := Base(source), target.members;
      forall k | k in n.Keys ::
        if n[k].Null? then k in m && m[k].Null?
        else CanReach(if k in m then m[k] else Null, n[k])
  }

  /** No merge patch makes a new null member. */
  lemma {:induction false} MergedIsReachable(source: Json, patch: Json)
    requires patch.Object?
    ensures CanReach(source, Merged(source, patch))
    decreases patch
  {
    var m, p := Base(source), patch.members;
    var r := Merged(source, patch).members;
    forall k | k in r.Keys
      ensures if r[k].Null? then k in m && m[k].Null? else CanReach(if k in m then m[k] else Null, r[k])
    {
      var child := if k in m then m[k] else Null;
      if k in p {
        assert !p[k].Null? && r[k] == Merged(child, p[k]);
        if p[k].Object? { MergedIsReachable(child, p[k]); }
      } else {
        assert k in m && r[k] == m[k];
        ReachItself(m[k]);
      }
    }
  }

  lemma {:induction false} ReachItself(j: Json)
    ensures CanReach(j, j)
  {
    if j.Object? {
      forall k | k in j.members.Keys ensures CanReach(j.members[k], j.members[k]) { ReachItself(j.members[k]); }
    }
  }

  /** Where it can be reached, the patch that names only what differs leads there: a merge
      keeps all members that the patch does not name. */
  lemma {:induction false} MergeDiffReaches(source: Json, target: Json)
    requires CanReach(source, target)
    ensures Merged(source, MergeDiff(source, target)) == target
    decreases target
  {
    if target.Object? {
      var m, n := Base(source), target.members;
      var p := MergeDiff(source, target).members;
      var r := Merged(source, MergeDiff(source, target)).members;
      forall k | k in n ensures k in r && r[k] == n[k] {
        if !n[k].Null? {
          MergeDiffReaches(if k in m then m[k] else Null, n[k]);
          assert k in p ==> p[k] == MergeDiff(if k in m then m[k] else Null, n[k]) && !p[k].Null?;
        }
      }
      forall k | k in m && k !in n ensures k in p && p[k] == Null {}
      assert forall k | k in r :: k in n;
      assert r == n;
    }
  }

  /** Exactly which values a merge patch can make of a source. */
  lemma MergeReaches(source: Json, target: Json)
    ensures (exists patch :: Merged(source, patch) == target) <==> CanReach(source, target)
  {
    if CanReach(source, target) {
      MergeDiffReaches(source, target);
    }
    forall patch | Merged(source, patch) == target ensures CanReach(source, target) {
      if patch.Object? { MergedIsReachable(source, patch); }
    }
  }
}
