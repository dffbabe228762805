/**
 `flatten` turns a value into an object from printed JSON pointers to primitive values;
 `unflatten` rebuilds a value from such an object.
 */
module Flatten {
  import opened JsonValue
  import opened JsonPointer
  import opened StringEscape
  import opened TextOrder

  // ----- flatten --------------------------------------------------------------

  /** A value that `flatten` does not look into. */
  predicate IsLeaf(j: Json) {
    !j.IsStructured() || j == Array([]) || j == Object(map[])
  }

  /** What `flatten` writes for a leaf: empty arrays and objects become null. */
  function LeafOut(j: Json): Json {
    if j.IsStructured() then Null else j
  }

  /** The entries for a value, under the printed path that leads to it. */
  function FlatMap(path: string, j: Json): map<string, Json>
    decreases j, 1, 0
  {
    if IsLeaf(j) then map[path := LeafOut(j)]
    else if j.Array? then FlatItems(path, j, |j.items|)
    else var keys := SortedKeys(j.members.Keys); FlatMembers(path, j, keys, |keys|)
  }

  function FlatItems(path: string, j: Json, n: nat): map<string, Json>
    requires j.Array? && n <= |j.items|
    decreases j, 0, n
  {
    if n == 0 then map[] else FlatItems(path, j, n - 1) + FlatMap(path + "/" + IndexText(n - 1), j.items[n - 1])
  }

  function FlatMembers(path: string, j: Json, keys: seq<string>, n: nat): map<string, Json>
    requires j.Object? && n <= |keys| && forall k | k in keys :: k in j.members
    decreases j, 0, n
  {
    if n == 0 then map[] else
      FlatMembers(path, j, keys, n - 1) + FlatMap(path + "/" + Escaped(keys[n - 1]), j.members[keys[n - 1]])
  }

  /** The recursive `flatten`: entries are written into one result object. */
  method FlattenInto(path: string, value: Json, result0: map<string, Json>) returns (result: map<string, Json>)
    ensures result == result0 + FlatMap(path, value)
    decreases value, 1
  {
    if IsLeaf(value) {
      result := result0[path := LeafOut(value)];
    } else if value.Array? {
      result := FlattenArray(path, value, result0);
    } else {
      result := FlattenObject(path, value, result0);
    }
  }

  /** The loop over an array; the index is the next reference token. */
  method FlattenArray(path: string, value: Json, result0: map<string, Json>) returns (result: map<string, Json>)
    requires value.Array?
    ensures result == result0 + FlatItems(path, value, |value.items|)
    decreases value, 0
  {
    hide FlatMap, FlatItems, IndexText;
    result := result0;
    NoItems(path, value);
    for i := 0 to |value.items|
      invariant result == result0 + FlatItems(path, value, i)
    {
      var next := path + "/" + IndexText(i);
      OneItemMore(path, value, i, result0);
      result := FlattenInto(next, value.items[i], result);
    }
  }

  lemma NoItems(path: string, j: Json)
    requires j.Array?
    ensures FlatItems(path, j, 0) == map[]
  {
  }

  lemma NoMembers(path: string, j: Json, keys: seq<string>)
    requires j.Object? && forall k | k in keys :: k in j.members
    ensures FlatMembers(path, j, keys, 0) == map[]
  {
  }

  lemma OneItemMore(path: string, j: Json, i: nat, m: map<string, Json>)
    requires j.Array? && i < |j.items|
    ensures m + FlatItems(path, j, i + 1) ==
            m + FlatItems(path, j, i) + FlatMap(path + "/" + IndexText(i), j.items[i])
  {
    hide FlatMap, IndexText;
    UnionAssociates(m, FlatItems(path, j, i), FlatMap(path + "/" + IndexText(i), j.items[i]));
  }

  /** The loop over an object; the escaped key is the next reference token. */
  method FlattenObject(path: string, value: Json, result0: map<string, Json>) returns (result: map<string, Json>)
    requires value.Object?
    ensures var keys := SortedKeys(value.members.Keys); result == result0 + FlatMembers(path, value, keys, |keys|)
    decreases value, 0
  {
    hide FlatMap, FlatMembers, Escaped, Less, SortedKeys;
    var keys := SortedKeys(value.members.Keys);
    result := result0;
    NoMembers(path, value, keys);
    for i := 0 to |keys|
      invariant result == result0 + FlatMembers(path, value, keys, i)
    {
      var k := keys[i];
      assert k in keys;
      var e := Escape(k);
      OneMemberMore(path, value, keys, i, result0);
      result := FlattenInto(path + "/" + e, value.members[k], result);
    }
  }

  lemma OneMemberMore(path: string, j: Json, keys: seq<string>, i: nat, m: map<string, Json>)
    requires j.Object? && i < |keys| && forall k | k in keys :: k in j.members
    ensures keys[i] in keys
    ensures m + FlatMembers(path, j, keys, i + 1) ==
            m + FlatMembers(path, j, keys, i) + FlatMap(path + "/" + Escaped(keys[i]), j.members[keys[i]])
  {
    hide FlatMap, Escaped;
    var here := FlatMap(path + "/" + Escaped(keys[i]), j.members[keys[i]]);
    UnionAssociates(m, FlatMembers(path, j, keys, i), here);
  }

  lemma UnionAssociates(a: map<string, Json>, b: map<string, Json>, c: map<string, Json>)
    ensures a + b + c == a + (b + c)
  {
  }

  /** `basic_json::flatten`. */
  method FlattenValue(value: Json) returns (result: Json)
    ensures result == Object(FlatMap("", value))
  {
    var entries := FlattenInto("", value, map[]);
    assert map[] + FlatMap("", value) == FlatMap("", value);
    result := Object(entries);
  }

  // ----- unflatten ------------------------------------------------------------

  /** `get_and_create` followed by the assignment of a value to what it found. */
  function CreateAt(j: Json, path: seq<string>, v: Json): Result<Json>
    decreases |path|
  {
    if path == [] then Ok(v)
    else match j
      case Null =>
        var c :- CreateAt(Null, path[1..], v);
        Ok(if path[0] == "0" then Array([c]) else Object(map[path[0] := c]))
      case Object(m) =>
        var c :- CreateAt(if path[0] in m then m[path[0]] else Null, path[1..], v);
        Ok(Object(m[path[0] := c]))
      case Array(a) =>
        var idx :- ArrayIndex(path[0]);
        var c :- CreateAt(Filled(a, idx)[idx], path[1..], v);
        Ok(Array(Filled(a, idx)[idx := c]))
      case _ => Throws(TypeError(313))
  }

  /** One entry of the flat object put into the value built so far. */
  function PutEntry(x: Json, key: string, v: Json): Result<Json> {
    if !v.IsPrimitive() then Throws(TypeError(315)) else
      var path :- Parsed(key);
      CreateAt(x, path, v)
  }

  /** The value after the first `n` entries, in key order. */
  function Rebuilt(m: map<string, Json>, keys: seq<string>, n: nat): Result<Json>
    requires n <= |keys| && forall k | k in keys :: k in m
  {
    if n == 0 then Ok(Null) else
      var x :- Rebuilt(m, keys, n - 1);
      PutEntry(x, keys[n - 1], m[keys[n - 1]])
  }

  /** What `unflatten` yields. */
  function Unflattened(value: Json): Result<Json> {
    if !value.Object? then Throws(TypeError(314)) else
      var keys := SortedKeys(value.members.Keys);
      Rebuilt(value.members, keys, |keys|)
  }

  /** Nothing follows an entry that was refused. */
  lemma {:induction false} RebuiltStops(m: map<string, Json>, keys: seq<string>, i: nat, n: nat)
    requires i <= n <= |keys| && forall k | k in keys :: k in m
    requires Rebuilt(m, keys, i).Throws?
    ensures Rebuilt(m, keys, n) == Rebuilt(m, keys, i)
    decreases n
  {
    hide Rebuilt, PutEntry;
    if i < n {
      RebuiltStops(m, keys, i, n - 1);
      RebuiltStep(m, keys, n - 1);
    }
  }

  lemma NothingRebuilt(m: map<string, Json>, keys: seq<string>)
    requires forall k | k in keys :: k in m
    ensures Rebuilt(m, keys, 0) == Ok(Null)
  {
  }

  lemma RebuiltStep(m: map<string, Json>, keys: seq<string>, i: nat)
    requires i < |keys| && forall k | k in keys :: k in m
    ensures keys[i] in keys
    ensures var x := Rebuilt(m, keys, i);
            Rebuilt(m, keys, i + 1) == if x.Ok? then PutEntry(x.value, keys[i], m[keys[i]]) else x
  {
    hide PutEntry;
  }

  /** `unflatten`: a loop over the entries in key order. */
  method Unflatten(value: Json) returns (r: Result<Json>)
    ensures r == Unflattened(value)
  {
    hide PutEntry, Less, SortedKeys, Rebuilt;
    if !value.Object? {
      return Throws(TypeError(314));
    }
    var keys := SortedKeys(value.members.Keys);
    var result := Null;
    NothingRebuilt(value.members, keys);
    for i := 0 to |keys|
      invariant Rebuilt(value.members, keys, i) == Ok(result)
    {
      var k := keys[i];
      assert k in keys;
      var v := value.members[k];
      var step := PutEntry(result, k, v);
      RebuiltStep(value.members, keys, i);
      if step.Throws? {
        RebuiltStops(value.members, keys, i + 1, |keys|);
        return Throws(step.error);
      }
      result := step.value;
    }
    return Ok(result);
  }

  /** Only objects are accepted whose members are all primitive and whose keys are all JSON
      pointers. */
  lemma UnflattenAcceptsOnly(value: Json)
    requires Unflattened(value).Ok?
    ensures value.Object?
    ensures forall k | k in value.members :: value.members[k].IsPrimitive() && Parsed(k).Ok?
  {
    hide Parsed, CreateAt, SortedKeys;
    var keys := SortedKeys(value.members.Keys);
    forall k | k in value.members ensures value.members[k].IsPrimitive() && Parsed(k).Ok? {
      var i :| 0 <= i < |keys| && keys[i] == k;
      if Rebuilt(value.members, keys, i + 1).Throws? {
        RebuiltStops(value.members, keys, i + 1, |keys|);
      }
    }
  }
}
