/**
 JSON Patch (section 4 of RFC 6902): the operations on a document and the loop
 that applies them.  `patch` works on a copy and edits it through references; here an
 edit yields the changed document.
 */
module Patch {
  import opened JsonValue
  import opened JsonPointer
  import opened Digits
  import opened StringEscape

  /** The value with one of its children exchanged. */
  function WithChild(j: Json, token: string, c: Json): Json
    requires Child(j, token).Ok?
  {
    match j
    case Object(m) => Object(m[token := c])
    case Array(a) => Array(a[ArrayIndex(token).value := c])
  }

  /** The document with the value at `path` exchanged; the path must lead somewhere. */
  function Put(j: Json, path: seq<string>, v: Json): Json
    requires At(j, path).Ok?
  {
    if path == [] then v
    else WithChild(j, path[0], Put(Child(j, path[0]).value, path[1..], v))
  }

  /** What null becomes when `get_unchecked` walks through it with this token. */
  function Vivified(j: Json, token: string): Json {
    if !j.Null? then j
    else if AllDigits(token) || token == "-" then Array([])
    else Object(map[])
  }

  /** Adding a member to an existing parent. */
  function AddChild(parent: Json, last: string, val: Json): Result<Json> {
    match parent
    case Null => Ok(Object(map[last := val]))
    case Object(m) => Ok(Object(m[last := val]))
    case Array(a) =>
      if last == "-" then Ok(Array(a + [val])) else
        var idx :- ArrayIndex(last);
        if idx > |a| then Throws(OutOfRange(401))
        else Ok(Array(a[..idx] + [val] + a[idx..]))
    case _ => Throws(AssertionFailure)
  }

  /** The walk of the non-const `get_unchecked` to the parent, creating what is missing,
      followed by the addition. */
  function AddUnder(j: Json, path: seq<string>, last: string, val: Json): Result<Json>
    decreases |path|
  {
    if path == [] then AddChild(j, last, val)
    else match Vivified(j, path[0])
      case Object(m) =>
        var child := if path[0] in m then m[path[0]] else Null;
        var c :- AddUnder(child, path[1..], last, val);
        Ok(Object(m[path[0] := c]))
      case Array(a) =>
        var idx :- if path[0] == "-" then Ok(|a|) else ArrayIndex(path[0]);
        var c :- AddUnder(Filled(a, idx)[idx], path[1..], last, val);
        Ok(Array(Filled(a, idx)[idx := c]))
      case _ => Throws(OutOfRange(404))
  }

  /** `operation_add`. */
  function OperationAdd(doc: Json, ptr: seq<string>, val: Json): Result<Json> {
    if ptr == [] then Ok(val)
    else if |ptr| > 1 && At(doc, ptr[..1]).Throws? then Throws(At(doc, ptr[..1]).error)
    else AddUnder(doc, ptr[..|ptr| - 1], ptr[|ptr| - 1], val)
  }

  /** Removing a member of the parent; a primitive parent is left alone. */
  function RemoveChild(parent: Json, last: string): Result<Json> {
    match parent
    case Object(m) => if last in m then Ok(Object(m - {last})) else Throws(OutOfRange(403))
    case Array(a) =>
      var idx :- ArrayIndex(last);
      if idx >= |a| then Throws(OutOfRange(401)) else Ok(Array(a[..idx] + a[idx + 1..]))
    case _ => Ok(parent)
  }

  /** `operation_remove`. */
  function OperationRemove(doc: Json, ptr: seq<string>): Result<Json> {
    if ptr == [] then Throws(OutOfRange(405)) else
      var front := ptr[..|ptr| - 1];
      var parent :- At(doc, front);
      var p :- RemoveChild(parent, ptr[|ptr| - 1]);
      Ok(Put(doc, front, p))
  }

  /** `get_value`. */
  function Member(op: map<string, Json>, name: string, isString: bool): Result<Json> {
    if name !in op then Throws(ParseError(105))
    else if isString && !op[name].String? then Throws(ParseError(105))
    else Ok(op[name])
  }

  /** The pointer held by a string member. */
  function Pointer(op: map<string, Json>, name: string): Result<seq<string>> {
    var text :- Member(op, name, true);
    if text.String? then Parsed(text.s) else Throws(ParseError(105))
  }

  /** One element of the patch applied to the document. */
  function ApplyOp(doc: Json, op: Json): Result<Json> {
    if !op.Object? then Throws(ParseError(104)) else
      var name :- Member(op.members, "op", true);
      var ptr :- Pointer(op.members, "path");
      if name == String("add") then
        var v :- Member(op.members, "value", false);
        OperationAdd(doc, ptr, v)
      else if name == String("remove") then
        OperationRemove(doc, ptr)
      else if name == String("replace") then
        var v :- Member(op.members, "value", false);
        var _ :- At(doc, ptr);
        Ok(Put(doc, ptr, v))
      else if name == String("move") then
        var from :- Pointer(op.members, "from");
        var v :- At(doc, from);
        var d :- OperationRemove(doc, from);
        OperationAdd(d, ptr, v)
      else if name == String("copy") then
        var from :- Pointer(op.members, "from");
        var v :- At(doc, from);
        OperationAdd(doc, ptr, v)
      else if name == String("test") then
        TestOp(doc, ptr, op.members)
      else Throws(ParseError(105))
  }

  /** The "test" operation: only out-of-range errors count as an unsuccessful test. */
  function TestOp(doc: Json, ptr: seq<string>, op: map<string, Json>): Result<Json> {
    match At(doc, ptr)
    case Ok(found) =>
      var v :- Member(op, "value", false);
      if LibEq(found, v) then Ok(doc) else Throws(OtherError(501))
    case Throws(OutOfRange(_)) => Throws(OtherError(501))
    case Throws(e) => Throws(e)
  }

  /** The operations one after the other, up to the first that fails. */
  function ApplyOps(doc: Json, ops: seq<Json>): Result<Json>
    decreases |ops|
  {
    if ops == [] then Ok(doc) else
      var d :- ApplyOp(doc, ops[0]);
      ApplyOps(d, ops[1..])
  }

  /** `patch`: a loop that edits a working copy. */
  method ApplyPatch(doc: Json, patch: Json) returns (r: Result<Json>)
    ensures r == if patch.Array? then ApplyOps(doc, patch.items) else Throws(ParseError(104))
  {
    var result := doc;
    if !patch.Array? {
      return Throws(ParseError(104));
    }
    var ops := patch.items;
    assert ops[0..] == ops;
    for i := 0 to |ops|
      invariant ApplyOps(doc, ops) == ApplyOps(result, ops[i..])
    {
      assert ops[i..][0] == ops[i] && ops[i..][1..] == ops[i + 1..];
      var step := ApplyOp(result, ops[i]);
      if step.Throws? {
        return Throws(step.error);
      }
      result := step.value;
    }
    return Ok(result);
  }

  lemma {:induction false} ApplyOpsConcat(doc: Json, a: seq<Json>, b: seq<Json>)
    ensures ApplyOps(doc, a + b) ==
            if ApplyOps(doc, a).Ok? then ApplyOps(ApplyOps(doc, a).value, b) else ApplyOps(doc, a)
    decreases |a|
  {
    if a == [] {
      assert a + b == b;
    } else {
      assert (a + b)[0] == a[0] && (a + b)[1..] == a[1..] + b;
      var d := ApplyOp(doc, a[0]);
      if d.Ok? { ApplyOpsConcat(d.value, a[1..], b); }
    }
  }

  // ----- paths --------------------------------------------------------------

  /** An exchanged child is found, replaces any earlier one, and leaves the value as it is if
      nothing was exchanged. */
  lemma ChildExchanged(j: Json, t: string, c: Json, d: Json)
    requires Child(j, t).Ok?
    ensures Child(WithChild(j, t, c), t) == Ok(c)
    ensures WithChild(WithChild(j, t, c), t, d) == WithChild(j, t, d)
    ensures WithChild(j, t, Child(j, t).value) == j
  {
    hide ArrayIndex;
  }

  /** What was put at a path is found there. */
  lemma {:induction false} AtPut(j: Json, p: seq<string>, v: Json)
    requires At(j, p).Ok?
    ensures At(Put(j, p, v), p) == Ok(v)
    decreases |p|
  {
    hide Child, WithChild;
    if p != [] {
      var c := Put(Child(j, p[0]).value, p[1..], v);
      AtPut(Child(j, p[0]).value, p[1..], v);
      ChildExchanged(j, p[0], c, c);
    }
  }

  /** Only the last value put at a path counts. */
  lemma {:induction false} PutPut(j: Json, p: seq<string>, v: Json, w: Json)
    requires At(j, p).Ok?
    ensures At(Put(j, p, v), p).Ok? && Put(Put(j, p, v), p, w) == Put(j, p, w)
    decreases |p|
  {
    hide Child, WithChild;
    AtPut(j, p, v);
    if p != [] {
      var c := Child(j, p[0]).value;
      PutPut(c, p[1..], v, w);
      ChildExchanged(j, p[0], Put(c, p[1..], v), Put(c, p[1..], w));
    }
  }

  /** Putting back what is there changes nothing. */
  lemma {:induction false} PutSame(j: Json, p: seq<string>)
    requires At(j, p).Ok?
    ensures Put(j, p, At(j, p).value) == j
    decreases |p|
  {
    hide Child, WithChild;
    if p != [] {
      var c := Child(j, p[0]).value;
      PutSame(c, p[1..]);
      ChildExchanged(j, p[0], c, c);
    }
  }

  /** Putting below a path is putting a changed value at the path. */
  lemma {:induction false} PutConcat(j: Json, p: seq<string>, q: seq<string>, v: Json)
    requires At(j, p + q).Ok? && At(j, p).Ok? && At(At(j, p).value, q).Ok?
    ensures Put(j, p + q, v) == Put(j, p, Put(At(j, p).value, q, v))
    decreases |p|
  {
    hide Child, WithChild;
    if p == [] {
      assert p + q == q;
    } else {
      assert (p + q)[0] == p[0] && (p + q)[1..] == p[1..] + q;
      PutConcat(Child(j, p[0]).value, p[1..], q, v);
    }
  }

  /** The walk of `get_unchecked` through a child that exists. */
  lemma AddThroughChild(j: Json, path: seq<string>, last: string, v: Json)
    requires path != [] && Child(j, path[0]).Ok?
    ensures var below := AddUnder(Child(j, path[0]).value, path[1..], last, v);
            AddUnder(j, path, last, v) == if below.Ok? then Ok(WithChild(j, path[0], below.value)) else below
  {
    hide ArrayIndex, AddChild;
    if j.Array? {
      var idx := ArrayIndex(path[0]).value;
      assert Filled(j.items, idx) == j.items;
    }
  }

  /** Along the part of the path that exists `get_unchecked` creates nothing: the addition
      changes the value found there and nothing else. */
  lemma {:induction false} AddUnderBelow(j: Json, q: seq<string>, r: seq<string>, last: string, v: Json)
    requires At(j, q).Ok?
    ensures var below := AddUnder(At(j, q).value, r, last, v);
            AddUnder(j, q + r, last, v) == if below.Ok? then Ok(Put(j, q, below.value)) else below
    decreases |q|
  {
    hide AddUnder, Child, WithChild;
    if q == [] {
      assert q + r == r;
    } else {
      assert (q + r)[0] == q[0] && (q + r)[1..] == q[1..] + r;
      AddUnderBelow(Child(j, q[0]).value, q[1..], r, last, v);
      AddThroughChild(j, q + r, last, v);
    }
  }

  lemma AddAtParent(doc: Json, p: seq<string>, last: string, v: Json)
    requires At(doc, p).Ok?
    ensures var added := AddChild(At(doc, p).value, last, v);
            OperationAdd(doc, p + [last], v) == if added.Ok? then Ok(Put(doc, p, added.value)) else added
  {
    hide ArrayIndex, AddChild, AddUnder, At, Put, OperationAdd;
    OperationAddStarts(doc, p, last, v);
    if p != [] {
      assert p == p[..1] + p[1..];
      AtConcat(doc, p[..1], p[1..]);
    }
    assert p + [] == p;
    AddUnderBelow(doc, p, [], last, v);
    AddHere(At(doc, p).value, last, v);
  }

  lemma OperationAddStarts(doc: Json, p: seq<string>, last: string, v: Json)
    ensures OperationAdd(doc, p + [last], v) ==
            if p != [] && At(doc, p[..1]).Throws? then Throws(At(doc, p[..1]).error) else AddUnder(doc, p, last, v)
  {
    hide At, AddUnder;
    var ptr := p + [last];
    assert ptr[..|ptr| - 1] == p;
    if p != [] { assert ptr[..1] == p[..1]; }
  }

  lemma AddHere(j: Json, last: string, v: Json)
    ensures AddUnder(j, [], last, v) == AddChild(j, last, v)
  {
    hide AddChild;
  }

  /** Adding below an existing parent. */
  lemma AddAt(doc: Json, p: seq<string>, last: string, v: Json)
    requires At(doc, p).Ok? && AddChild(At(doc, p).value, last, v).Ok?
    ensures OperationAdd(doc, p + [last], v) == Ok(Put(doc, p, AddChild(At(doc, p).value, last, v).value))
  {
    hide OperationAdd, AddChild;
    AddAtParent(doc, p, last, v);
  }

  /** Removing below an existing parent. */
  lemma RemoveAt(doc: Json, p: seq<string>, last: string)
    requires At(doc, p).Ok? && RemoveChild(At(doc, p).value, last).Ok?
    ensures OperationRemove(doc, p + [last]) == Ok(Put(doc, p, RemoveChild(At(doc, p).value, last).value))
  {
    var ptr := p + [last];
    assert ptr[..|ptr| - 1] == p;
  }

  // ----- what the operations promise ----------------------------------------

  /** Where the walk of "add" goes on: the child of this name, or a null that it makes. */
  function Below(j: Json, token: string): Json {
    if Child(j, token).Ok? then Child(j, token).value else Null
  }

  /** The walk meets an array, there already or made on the way, with the append token "-". */
  predicate MeetsDash(j: Json, path: seq<string>, last: string)
    decreases |path|
  {
    if path == [] then j.Array? && last == "-"
    else (Vivified(j, path[0]).Array? && path[0] == "-") || MeetsDash(Below(j, path[0]), path[1..], last)
  }

  /** An added value is found at its pointer, whether its parent was there or was made, exactly
      if no array was met with the append token "-": that token always means a new element. */
  lemma AddedValueIsFound(doc: Json, p: seq<string>, last: string, v: Json)
    requires OperationAdd(doc, p + [last], v).Ok?
    ensures At(OperationAdd(doc, p + [last], v).value, p + [last]) == Ok(v) <==> !MeetsDash(doc, p, last)
  {
    hide OperationAdd, AddUnder, At, MeetsDash;
    OperationAddStarts(doc, p, last, v);
    FoundUnder(doc, p, last, v);
  }

  lemma {:induction false} FoundUnder(j: Json, path: seq<string>, last: string, v: Json)
    requires AddUnder(j, path, last, v).Ok?
    ensures At(AddUnder(j, path, last, v).value, path + [last]) == Ok(v) <==> !MeetsDash(j, path, last)
    decreases |path|
  {
    hide AddUnder, AddChild, Child, Below, Vivified;
    var made := AddUnder(j, path, last, v).value;
    if path == [] {
      AddHere(j, last, v);
      AddedChildIsFound(j, last, v);
      AtOne(made, last);
      assert path + [last] == [last];
    } else {
      FoundBelow(j, path, last, v);
      assert (path + [last])[0] == path[0] && (path + [last])[1..] == path[1..] + [last];
      if Child(made, path[0]).Ok? { FoundUnder(Below(j, path[0]), path[1..], last, v); }
    }
  }

  /** One step of the walk: what was made below is the child of this name, unless that name is
      the append token. */
  lemma FoundBelow(j: Json, path: seq<string>, last: string, v: Json)
    requires path != [] && AddUnder(j, path, last, v).Ok?
    ensures var made, below := AddUnder(j, path, last, v).value, AddUnder(Below(j, path[0]), path[1..], last, v);
            below.Ok? && if Vivified(j, path[0]).Array? && path[0] == "-" then Child(made, path[0]).Throws?
                         else Child(made, path[0]) == below
  {
    hide ArrayIndex, AddChild, AllDigits;
    DashIsNoIndex();
    if Vivified(j, path[0]).Array? {
      var a := Vivified(j, path[0]).items;
      var idx := if path[0] == "-" then Ok(|a|) else ArrayIndex(path[0]);
      if idx.Ok? { assert Filled(a, idx.value)[idx.value] == Below(j, path[0]); }
    }
  }

  lemma AddedChildIsFound(parent: Json, last: string, v: Json)
    requires AddChild(parent, last, v).Ok?
    ensures Child(AddChild(parent, last, v).value, last) == Ok(v) <==> !(parent.Array? && last == "-")
  {
    hide ArrayIndex;
  }

  // ----- when "add" succeeds ---------------------------------------------------------

  /** How many tokens of the path lead somewhere. */
  function Depth(j: Json, p: seq<string>): (n: nat)
    ensures n <= |p| && At(j, p[..n]).Ok?
    ensures n < |p| ==> Child(At(j, p[..n]).value, p[n]).Throws?
    ensures n == |p| <==> At(j, p).Ok?
    decreases |p|
  {
    hide Child;
    if p == [] || Child(j, p[0]).Throws? then 0
    else
      var n := Depth(Child(j, p[0]).value, p[1..]);
      assert p[..1 + n][0] == p[0] && p[..1 + n][1..] == p[1..][..n];
      1 + n
  }

  /** The value that the existing part of the path leads to. */
  function Deepest(j: Json, p: seq<string>): Json {
    At(j, p[..Depth(j, p)]).value
  }

  /** A token that `get_unchecked` can walk through when it has just made a null. */
  predicate Walkable(t: string) {
    t == "-" || !AllDigits(t) || ArrayIndex(t).Ok?
  }

  /** Below a value that has no child of this name, the missing part of a path can be made. */
  predicate CanMake(j: Json, missing: seq<string>)
    requires missing != []
  {
    && (j.Object? || (j.Array? && (missing[0] == "-" || ArrayIndex(missing[0]).Ok?)) ||
        (j.Null? && Walkable(missing[0])))
    && forall k | 1 <= k < |missing| :: Walkable(missing[k])
  }

  /** The parent takes a child of this name. */
  predicate TakesChild(parent: Json, last: string) {
    || parent.Null?
    || parent.Object?
    || (parent.Array? && (last == "-" || (ArrayIndex(last).Ok? && ArrayIndex(last).value <= |parent.items|)))
  }

  /** Below null everything is made, as long as every token can be walked through. */
  lemma {:induction false} MakeFromNull(missing: seq<string>, last: string, v: Json)
    ensures AddUnder(Null, missing, last, v).Ok? <==> forall k | 0 <= k < |missing| :: Walkable(missing[k])
    ensures AddUnder(Null, missing, last, v) != Throws(AssertionFailure)
    decreases |missing|
  {
    if missing != [] {
      var t, rest := missing[0], missing[1..];
      MakeFromNull(rest, last, v);
      MadeBelow(Null, missing, last, v);
      assert (forall k | 0 <= k < |missing| :: Walkable(missing[k])) <==>
             Walkable(t) && forall k | 0 <= k < |rest| :: Walkable(rest[k]) by {
        assert forall k | 0 <= k < |rest| :: rest[k] == missing[k + 1];
        assert forall k | 1 <= k < |missing| :: missing[k] == rest[k - 1];
      }
    }
  }

  /** One step of the walk into what is missing. */
  lemma MadeBelow(j: Json, missing: seq<string>, last: string, v: Json)
    requires missing != [] && Child(j, missing[0]).Throws?
    ensures var below := AddUnder(Null, missing[1..], last, v);
            && (AddUnder(j, missing, last, v).Ok? <==> CanMake(j, missing[..1]) && below.Ok?)
            && (below != Throws(AssertionFailure) ==> AddUnder(j, missing, last, v) != Throws(AssertionFailure))
  {
    hide ArrayIndex;
    IndexNeverAsserts(missing[0]);
    var t := missing[0];
    if Vivified(j, t).Array? {
      var a := Vivified(j, t).items;
      var idx := if t == "-" then Ok(|a|) else ArrayIndex(t);
      if idx.Ok? { assert Filled(a, idx.value)[idx.value] == Null; }
    }
  }

  lemma IndexNeverAsserts(token: string)
    ensures ArrayIndex(token) != Throws(AssertionFailure)
  {
  }

  /** Below a value that has no child of this name. */
  lemma MakeMissing(j: Json, missing: seq<string>, last: string, v: Json)
    requires missing != [] && Child(j, missing[0]).Throws?
    ensures AddUnder(j, missing, last, v).Ok? <==> CanMake(j, missing)
    ensures AddUnder(j, missing, last, v) != Throws(AssertionFailure)
  {
    hide Walkable, AddUnder;
    var rest := missing[1..];
    MakeFromNull(rest, last, v);
    MadeBelow(j, missing, last, v);
    assert forall k | 0 <= k < |rest| :: rest[k] == missing[k + 1];
    assert forall k | 1 <= k < |missing| :: missing[k] == rest[k - 1];
  }

  /** An addition whose parent is missing: exactly when it succeeds nevertheless, and that it
      then changes only the deepest value that exists. */
  lemma AddThroughMissing(doc: Json, p: seq<string>, last: string, v: Json)
    requires At(doc, p).Throws?
    ensures OperationAdd(doc, p + [last], v).Ok? <==>
            At(doc, p[..1]).Ok? && CanMake(Deepest(doc, p), p[Depth(doc, p)..])
    ensures OperationAdd(doc, p + [last], v).Ok? ==>
              var n, made := Depth(doc, p), AddUnder(Deepest(doc, p), p[Depth(doc, p)..], last, v);
              made.Ok? && OperationAdd(doc, p + [last], v).value == Put(doc, p[..n], made.value)
    ensures OperationAdd(doc, p + [last], v) != Throws(AssertionFailure)
  {
    hide AddUnder, CanMake, ArrayIndex, AddChild, At, Put, OperationAdd;
    var n := Depth(doc, p);
    var q, r := p[..n], p[n..];
    assert p == q + r;
    AtRoot(doc);
    OperationAddStarts(doc, p, last, v);
    AddUnderBelow(doc, q, r, last, v);
    MakeMissing(Deepest(doc, p), r, last, v);
    AtNeverAsserts(doc, p[..1]);
  }

  lemma AtRoot(doc: Json)
    ensures At(doc, []) == Ok(doc)
  {
  }

  lemma {:induction false} AtNeverAsserts(j: Json, p: seq<string>)
    ensures At(j, p) != Throws(AssertionFailure)
    decreases |p|
  {
    hide ArrayIndex;
    if p != [] {
      IndexNeverAsserts(p[0]);
      if Child(j, p[0]).Ok? { AtNeverAsserts(Child(j, p[0]).value, p[1..]); }
    }
  }

  /** A value can be added at the pointer. */
  predicate CanAdd(doc: Json, ptr: seq<string>) {
    || ptr == []
    || var p := ptr[..|ptr| - 1];
       if At(doc, p).Ok? then TakesChild(At(doc, p).value, ptr[|ptr| - 1])
       else At(doc, p[..1]).Ok? && CanMake(Deepest(doc, p), p[Depth(doc, p)..])
  }

  /** Exactly when "add" succeeds, for every document and every pointer. */
  lemma AddSucceeds(doc: Json, ptr: seq<string>, v: Json)
    ensures OperationAdd(doc, ptr, v).Ok? <==> CanAdd(doc, ptr)
  {
    hide OperationAdd, CanMake, Deepest, At, Put, AddChild, TakesChild;
    if ptr == [] {
      AddAtRoot(doc, v);
    } else {
      var p, last := ptr[..|ptr| - 1], ptr[|ptr| - 1];
      assert p + [last] == ptr;
      if At(doc, p).Ok? {
        AddAtParent(doc, p, last, v);
        AddChildSucceeds(At(doc, p).value, last, v);
      } else {
        AddThroughMissing(doc, p, last, v);
      }
    }
  }

  lemma AddChildSucceeds(parent: Json, last: string, v: Json)
    ensures AddChild(parent, last, v).Ok? <==> TakesChild(parent, last)
  {
    hide ArrayIndex;
  }

  lemma AddAtRoot(doc: Json, v: Json)
    ensures OperationAdd(doc, [], v) == Ok(v)
  {
  }

  /** Section 4.1 of RFC 6902 wants the parent to exist; the library makes it: at {"a":{}} the
      pointer "/a/b/c" has no parent, and the addition succeeds. */
  lemma AddMakesParent(v: Json)
    ensures var doc := Object(map["a" := Object(map[])]);
            && Parsed("/a/b/c") == Ok(["a", "b", "c"])
            && At(doc, ["a", "b"]).Throws?
            && OperationAdd(doc, ["a", "b", "c"], v) ==
               Ok(Object(map["a" := Object(map["b" := Object(map["c" := v])])]))
  {
    TextOfThree();
    ParsePrint(["a", "b", "c"]);
    BelowEmptyObject(v);
  }

  lemma BelowEmptyObject(v: Json)
    ensures var doc := Object(map["a" := Object(map[])]);
            && At(doc, ["a", "b"]).Throws?
            && OperationAdd(doc, ["a", "b", "c"], v) ==
               Ok(Object(map["a" := Object(map["b" := Object(map["c" := v])])]))
  {
    hide ArrayIndex, Filled, AllDigits;
    var doc := Object(map["a" := Object(map[])]);
    assert ["a", "b", "c"][..2] == ["a"] + ["b"] && ["a", "b", "c"][..1] == ["a"] && ["a"][1..] == [];
    assert ["a"] + ["b"] == ["a", "b"];
    assert At(doc, ["a"]) == Ok(Object(map[]));
    AtStep(doc, ["a"], "b");
    AddUnderBelow(doc, ["a"], ["b"], "c", v);
    assert ["b"][1..] == [];
    assert AddUnder(Null, [], "c", v) == Ok(Object(map["c" := v]));
    assert AddUnder(Object(map[]), ["b"], "c", v) == Ok(Object(map["b" := Object(map["c" := v])]));
    var made := Object(map["b" := Object(map["c" := v])]);
    assert Put(doc, ["a"], made) == Object(map["a" := made]);
  }

  lemma TextOfThree()
    ensures ToText(["a", "b", "c"]) == "/a/b/c"
  {
    hide Escaped, ToText;
    ToTextOfNone();
    assert ["a", "b", "c"] == [] + ["a"] + ["b"] + ["c"];
    ToTextAppend([], "a");
    ToTextAppend([] + ["a"], "b");
    ToTextAppend([] + ["a"] + ["b"], "c");
    PlainCharacter('a');
    PlainCharacter('b');
    PlainCharacter('c');
  }

  lemma PlainCharacter(c: char)
    requires c != '~' && c != '/'
    ensures Escaped([c]) == [c]
  {
    assert [c][1..] == [];
  }

  /** The comment in `operation_add` that an existing parent cannot be primitive is wrong: the
      assertion is reached exactly when the parent exists and is neither null, an array nor an
      object. */
  lemma AddReachesAssertion(doc: Json, p: seq<string>, last: string, v: Json)
    ensures OperationAdd(doc, p + [last], v) == Throws(AssertionFailure) <==>
            At(doc, p).Ok? && !At(doc, p).value.Null? && !At(doc, p).value.IsStructured()
  {
    hide OperationAdd, ArrayIndex;
    if At(doc, p).Ok? {
      AddAtParent(doc, p, last, v);
      IndexNeverAsserts(last);
    } else {
      AddThroughMissing(doc, p, last, v);
    }
  }

  /** As below {"a":true} at "/a/b". */
  lemma AssertionBelowBoolean(v: Json)
    ensures OperationAdd(Object(map["a" := Boolean(true)]), ["a", "b"], v) == Throws(AssertionFailure)
  {
    var doc := Object(map["a" := Boolean(true)]);
    assert At(doc, ["a"]) == Ok(Boolean(true)) by { assert ["a"][1..] == []; }
    assert ["a"] + ["b"] == ["a", "b"];
    AddReachesAssertion(doc, ["a"], "b", v);
  }

  /** Exactly when "remove" succeeds: the parent exists, and holds the child or is neither an
      array nor an object.  In the last case nothing is removed, although section 4.2 of
      RFC 6902 wants the target to exist. */
  lemma RemoveSucceeds(doc: Json, p: seq<string>, last: string)
    ensures OperationRemove(doc, p + [last]).Ok? <==>
            At(doc, p).Ok? && (Child(At(doc, p).value, last).Ok? || !At(doc, p).value.IsStructured())
    ensures OperationRemove(doc, p + [last]).Ok? && !At(doc, p).value.IsStructured() ==>
              OperationRemove(doc, p + [last]) == Ok(doc) && At(doc, p + [last]).Throws?
  {
    hide RemoveChild, Child, At, Put;
    var ptr := p + [last];
    assert ptr[..|ptr| - 1] == p;
    if At(doc, p).Ok? {
      RemoveChildSucceeds(At(doc, p).value, last);
      PutSame(doc, p);
      AtStep(doc, p, last);
    }
  }

  lemma RemoveChildSucceeds(parent: Json, last: string)
    ensures RemoveChild(parent, last).Ok? <==> Child(parent, last).Ok? || !parent.IsStructured()
    ensures !parent.IsStructured() ==> RemoveChild(parent, last) == Ok(parent) && Child(parent, last).Throws?
  {
    hide ArrayIndex;
    DashIsNoIndex();
  }

  /** As below {"a":true} at "/a/b". */
  lemma RemoveBelowBoolean()
    ensures var doc := Object(map["a" := Boolean(true)]);
            At(doc, ["a", "b"]).Throws? && OperationRemove(doc, ["a", "b"]) == Ok(doc)
  {
    var doc := Object(map["a" := Boolean(true)]);
    assert At(doc, ["a"]) == Ok(Boolean(true)) by { assert ["a"][1..] == []; }
    assert ["a"] + ["b"] == ["a", "b"];
    RemoveSucceeds(doc, ["a"], "b");
  }

  lemma RemoveChildUndoesAdd(parent: Json, last: string, v: Json)
    requires parent.IsStructured() && AddChild(parent, last, v).Ok?
    requires parent.Object? ==> last !in parent.members
    requires parent.Array? ==> last != "-"
    ensures RemoveChild(AddChild(parent, last, v).value, last) == Ok(parent)
  {
    match parent
    case Object(m) => assert m[last := v] - {last} == m;
    case Array(a) =>
      var idx := ArrayIndex(last).value;
      var b := a[..idx] + [v] + a[idx..];
      assert b[..idx] + b[idx + 1..] == a;
  }

  /** Removing what was just added to an object under a new name, or inserted into an array,
      restores the document. */
  lemma RemoveUndoesAdd(doc: Json, p: seq<string>, last: string, v: Json)
    requires At(doc, p).Ok? && At(doc, p).value.IsStructured()
    requires At(doc, p).value.Object? ==> last !in At(doc, p).value.members
    requires At(doc, p).value.Array? ==> last != "-"
    requires OperationAdd(doc, p + [last], v).Ok?
    ensures OperationRemove(OperationAdd(doc, p + [last], v).value, p + [last]) == Ok(doc)
  {
    hide OperationAdd, OperationRemove, AddChild, RemoveChild, At, Put;
    AddAtParent(doc, p, last, v);
    var parent := At(doc, p).value;
    var changed := AddChild(parent, last, v).value;
    AtPut(doc, p, changed);
    RemoveChildUndoesAdd(parent, last, v);
    RemoveAt(Put(doc, p, changed), p, last);
    PutPut(doc, p, changed, parent);
    PutSame(doc, p);
  }

  // ----- what the operations leave -----------------------------------------------------

  /** "add" at an existing parent (section 4.1 of RFC 6902): a member is created or replaced, an
      element is inserted before the index or appended; null becomes an object. */
  lemma AddEffect(doc: Json, p: seq<string>, last: string, v: Json)
    requires At(doc, p).Ok?
    ensures At(doc, p).value.Null? ==>
              OperationAdd(doc, p + [last], v) == Ok(Put(doc, p, Object(map[last := v])))
    ensures At(doc, p).value.Object? ==>
              OperationAdd(doc, p + [last], v) == Ok(Put(doc, p, Object(At(doc, p).value.members[last := v])))
    ensures At(doc, p).value.Array? ==>
              var a := At(doc, p).value.items;
              && OperationAdd(doc, p + ["-"], v) == Ok(Put(doc, p, Array(a + [v])))
              && forall i: nat | i <= |a| && i < 0xFFFF_FFFF_FFFF_FFFF && last == IndexText(i) ::
                   OperationAdd(doc, p + [last], v) == Ok(Put(doc, p, Array(a[..i] + [v] + a[i..])))
  {
    hide OperationAdd, At, Put, ArrayIndex, IndexText;
    AddAtParent(doc, p, last, v);
    AddAtParent(doc, p, "-", v);
    if At(doc, p).value.Array? {
      var a := At(doc, p).value.items;
      DashIsNoIndex();
      forall i: nat | i <= |a| && i < 0xFFFF_FFFF_FFFF_FFFF && last == IndexText(i)
        ensures OperationAdd(doc, p + [last], v) == Ok(Put(doc, p, Array(a[..i] + [v] + a[i..])))
      {
        ArrayIndexOfText(i);
      }
    }
  }

  /** "remove" at an existing parent (section 4.2): the member or the element goes, and the
      elements behind it move up. */
  lemma RemoveEffect(doc: Json, p: seq<string>, last: string)
    requires At(doc, p).Ok?
    ensures At(doc, p).value.Object? && last in At(doc, p).value.members ==>
              OperationRemove(doc, p + [last]) == Ok(Put(doc, p, Object(At(doc, p).value.members - {last})))
    ensures At(doc, p).value.Array? ==>
              var a := At(doc, p).value.items;
              forall i: nat | i < |a| && i < 0xFFFF_FFFF_FFFF_FFFF && last == IndexText(i) ::
                OperationRemove(doc, p + [last]) == Ok(Put(doc, p, Array(a[..i] + a[i + 1..])))
  {
    hide OperationRemove, At, Put, ArrayIndex, IndexText;
    if RemoveChild(At(doc, p).value, last).Ok? { RemoveAt(doc, p, last); }
    if At(doc, p).value.Array? {
      var a := At(doc, p).value.items;
      forall i: nat | i < |a| && i < 0xFFFF_FFFF_FFFF_FFFF && last == IndexText(i)
        ensures OperationRemove(doc, p + [last]) == Ok(Put(doc, p, Array(a[..i] + a[i + 1..])))
      {
        ArrayIndexOfText(i);
      }
    }
  }

  /** Putting a value somewhere changes what is found there and below, and nothing beside it. */
  lemma {:induction false} PutElsewhere(j: Json, p: seq<string>, v: Json, q: seq<string>)
    requires At(j, p).Ok?
    ensures At(Put(j, p, v), p + q) == At(v, q)
    ensures !(p <= q) && !(q <= p) ==> At(Put(j, p, v), q) == At(j, q)
    decreases |p|
  {
    hide At, Put, Child, WithChild;
    AtPut(j, p, v);
    AtConcat(Put(j, p, v), p, q);
    if !(p <= q) && !(q <= p) {
      PutUnfolds(j, p, v);
      AtUnfolds(j, q);
      AtUnfolds(Put(j, p, v), q);
      AtUnfolds(j, p);
      var c := Child(j, p[0]).value;
      if p[0] == q[0] {
        assert p == [p[0]] + p[1..] && q == [q[0]] + q[1..];
        PutElsewhere(c, p[1..], v, q[1..]);
        ChildExchanged(j, p[0], Put(c, p[1..], v), v);
      } else {
        OtherChild(j, p[0], Put(c, p[1..], v), q[0]);
      }
    }
  }

  lemma PutUnfolds(j: Json, p: seq<string>, v: Json)
    requires At(j, p).Ok? && p != []
    ensures Child(j, p[0]).Ok? && At(Child(j, p[0]).value, p[1..]).Ok?
    ensures Put(j, p, v) == WithChild(j, p[0], Put(Child(j, p[0]).value, p[1..], v))
  {
    hide Child, WithChild;
  }

  lemma AtUnfolds(j: Json, q: seq<string>)
    requires q != []
    ensures At(j, q) == if Child(j, q[0]).Ok? then At(Child(j, q[0]).value, q[1..]) else Child(j, q[0])
  {
    hide Child;
  }

  lemma OtherChild(j: Json, t: string, c: Json, u: string)
    requires Child(j, t).Ok? && t != u
    ensures Child(WithChild(j, t, c), u) == Child(j, u)
  {
    hide ArrayIndex;
    if j.Array? && ArrayIndex(u).Ok? {
      ArrayIndexIsCanonical(t);
      ArrayIndexIsCanonical(u);
    }
  }

  /** "add" whose parent alone is missing makes it: a member of an object; an element of an array
      at its end, or at an index behind it, with nulls in between; and null becomes an array if
      the token is a number or "-", and an object otherwise. */
  lemma AddMakesOneLevel(doc: Json, q: seq<string>, t: string, last: string, v: Json)
    requires q != [] && At(doc, q).Ok? && Child(At(doc, q).value, t).Throws?
    ensures var x, made, added := At(doc, q).value, Object(map[last := v]), OperationAdd(doc, q + [t] + [last], v);
            && (x.Object? ==> added == Ok(Put(doc, q, Object(x.members[t := made]))))
            && (x.Array? && t == "-" ==> added == Ok(Put(doc, q, Array(x.items + [made]))))
            && (x.Array? ==> forall i: nat | |x.items| <= i < 0xFFFF_FFFF_FFFF_FFFF && t == IndexText(i) ::
                  added == Ok(Put(doc, q, Array(x.items + Nulls(i - |x.items|) + [made]))))
            && (x.Null? && t == "-" ==> added == Ok(Put(doc, q, Array([made]))))
            && (x.Null? ==> forall i: nat | i < 0xFFFF_FFFF_FFFF_FFFF && t == IndexText(i) ::
                  added == Ok(Put(doc, q, Array(Nulls(i) + [made]))))
            && (x.Null? && t != "-" && !AllDigits(t) ==> added == Ok(Put(doc, q, Object(map[t := made]))))
  {
    hide AddUnder, At, Put, OperationAdd, Child, IndexText, Nulls;
    var x := At(doc, q).value;
    OperationAddStarts(doc, q + [t], last, v);
    assert (q + [t])[..1] == q[..1] && q == q[..1] + q[1..];
    AtConcat(doc, q[..1], q[1..]);
    AddUnderBelow(doc, q, [t], last, v);
    MadeHere(x, t, last, v);
    if x.Array? {
      forall i: nat | |x.items| <= i < 0xFFFF_FFFF_FFFF_FFFF && t == IndexText(i)
        ensures AddUnder(x, [t], last, v) ==
                Ok(Array(x.items + Nulls(i - |x.items|) + [Object(map[last := v])]))
      {
        MadeAtIndex(x, x.items, t, i, last, v);
      }
    }
    if x.Null? {
      forall i: nat | i < 0xFFFF_FFFF_FFFF_FFFF && t == IndexText(i)
        ensures AddUnder(x, [t], last, v) == Ok(Array(Nulls(i) + [Object(map[last := v])]))
      {
        MadeAtIndex(x, [], t, i, last, v);
        assert [] + Nulls(i) == Nulls(i);
      }
    }
  }

  function Nulls(n: nat): seq<Json> {
    seq(n, _ => Null)
  }

  lemma MadeHere(x: Json, t: string, last: string, v: Json)
    requires Child(x, t).Throws?
    ensures var made := Object(map[last := v]);
            && (x.Object? ==> AddUnder(x, [t], last, v) == Ok(Object(x.members[t := made])))
            && (x.Array? && t == "-" ==> AddUnder(x, [t], last, v) == Ok(Array(x.items + [made])))
            && (x.Null? && t == "-" ==> AddUnder(x, [t], last, v) == Ok(Array([made])))
            && (x.Null? && t != "-" && !AllDigits(t) ==> AddUnder(x, [t], last, v) == Ok(Object(map[t := made])))
  {
    hide ArrayIndex;
    assert [t][1..] == [];
    assert AddUnder(Null, [], last, v) == Ok(Object(map[last := v]));
    var a := if x.Array? then x.items else [];
    assert Filled(a, |a|)[|a| := Object(map[last := v])] == a + [Object(map[last := v])];
    if x.Null? { assert a + [Object(map[last := v])] == [Object(map[last := v])]; }
  }

  lemma MadeAtIndex(x: Json, a: seq<Json>, t: string, i: nat, last: string, v: Json)
    requires x == Array(a) || (x == Null && a == [])
    requires |a| <= i < 0xFFFF_FFFF_FFFF_FFFF && t == IndexText(i)
    ensures AddUnder(x, [t], last, v) == Ok(Array(a + Nulls(i - |a|) + [Object(map[last := v])]))
  {
    hide ArrayIndex, IndexText;
    ArrayIndexOfText(i);
    DashIsNoIndex();
    assert [t][1..] == [];
    assert AddUnder(Null, [], last, v) == Ok(Object(map[last := v]));
    assert Filled(a, i)[i := Object(map[last := v])] == a + Nulls(i - |a|) + [Object(map[last := v])];
  }

  // ----- why an operation fails ------------------------------------------------------

  /** The error of "remove": nothing is above the root; otherwise it is the parent's look-up error,
      or the error for the child, except that "-" at an array is read as an index. */
  lemma RemoveThrows(doc: Json, p: seq<string>, last: string)
    requires OperationRemove(doc, p + [last]).Throws?
    ensures OperationRemove(doc, []) == Throws(OutOfRange(405))
    ensures OperationRemove(doc, p + [last]) ==
            if At(doc, p).Throws? then At(doc, p)
            else if At(doc, p).value.Array? && last == "-" then Throws(OutOfRange(404))
            else Child(At(doc, p).value, last)
  {
    hide RemoveChild, Child, At, Put;
    var ptr := p + [last];
    assert ptr[..|ptr| - 1] == p;
    if At(doc, p).Ok? { RemoveChildThrows(At(doc, p).value, last); }
  }

  lemma RemoveChildThrows(parent: Json, last: string)
    ensures RemoveChild(parent, last).Throws? ==>
              RemoveChild(parent, last) == if parent.Array? && last == "-" then Throws(OutOfRange(404))
                                           else Child(parent, last)
  {
    hide ArrayIndex;
    assert ArrayIndex("-") == Throws(OutOfRange(404)) by { DashIsNotRead(); }
  }

  /** The error of "add" at an existing parent that is an array is the one for the index. */
  lemma AddThrows(doc: Json, p: seq<string>, last: string, v: Json)
    requires At(doc, p).Ok? && OperationAdd(doc, p + [last], v).Throws?
    ensures OperationAdd(doc, p + [last], v) ==
            if At(doc, p).value.Array? then Child(At(doc, p).value, last) else Throws(AssertionFailure)
  {
    hide OperationAdd, At, Put, AddChild, Child;
    AddAtParent(doc, p, last, v);
    AddChildThrows(At(doc, p).value, last, v);
  }

  lemma AddChildThrows(parent: Json, last: string, v: Json)
    ensures AddChild(parent, last, v).Throws? ==>
              AddChild(parent, last, v) == if parent.Array? then Child(parent, last) else Throws(AssertionFailure)
  {
    hide ArrayIndex;
  }

  /** The error of "add" at a missing parent: that of the first token if it leads nowhere, and
      otherwise that of the first token from which nothing can be made. */
  lemma AddThrowsOnTheWay(doc: Json, p: seq<string>, last: string, v: Json)
    requires At(doc, p).Throws? && OperationAdd(doc, p + [last], v).Throws?
    ensures OperationAdd(doc, p + [last], v) ==
            if At(doc, p[..1]).Throws? then Throws(At(doc, p).error)
            else Throws(MakingError(Deepest(doc, p), p[Depth(doc, p)..]))
  {
    hide AddUnder, CanMake, ArrayIndex, AddChild, At, Put, OperationAdd, MakingError, Child;
    var n := Depth(doc, p);
    var q, r := p[..n], p[n..];
    assert p == q + r;
    AtRoot(doc);
    OperationAddStarts(doc, p, last, v);
    if At(doc, p[..1]).Throws? {
      assert p == p[..1] + p[1..];
      AtConcat(doc, p[..1], p[1..]);
    } else {
      AddUnderBelow(doc, q, r, last, v);
      MakingThrows(Deepest(doc, p), r, last, v);
    }
  }

  /** The error of the first token from which nothing can be made below this value. */
  function MakingError(j: Json, missing: seq<string>): Exception
    requires missing != []
    decreases |missing|
  {
    if CanMake(j, missing[..1]) && |missing| > 1 then MakingError(Null, missing[1..])
    else if j.Null? || j.Array? then IndexRefusal(missing[0])
    else OutOfRange(404)
  }

  lemma MakingStep(j: Json, missing: seq<string>, last: string, v: Json)
    requires missing != [] && Child(j, missing[0]).Throws?
    ensures var below := AddUnder(Null, missing[1..], last, v);
            if CanMake(j, missing[..1]) then below.Throws? ==> AddUnder(j, missing, last, v) == below
            else AddUnder(j, missing, last, v) ==
                 Throws(if j.Null? || j.Array? then IndexRefusal(missing[0]) else OutOfRange(404))
  {
    hide ArrayIndex, IndexRefusal;
    var t := missing[0];
    if t != "-" && ArrayIndex(t).Throws? { IndexRefused(t); }
    if Vivified(j, t).Array? {
      var a := Vivified(j, t).items;
      var idx := if t == "-" then Ok(|a|) else ArrayIndex(t);
      if idx.Ok? { assert Filled(a, idx.value)[idx.value] == Null; }
    }
  }

  lemma {:induction false} MakingThrows(j: Json, missing: seq<string>, last: string, v: Json)
    requires missing != [] && Child(j, missing[0]).Throws? && AddUnder(j, missing, last, v).Throws?
    ensures AddUnder(j, missing, last, v) == Throws(MakingError(j, missing))
    decreases |missing|
  {
    hide AddUnder, CanMake, IndexRefusal, Child;
    var rest := missing[1..];
    MadeBelow(j, missing, last, v);
    MakingStep(j, missing, last, v);
    if CanMake(j, missing[..1]) {
      if rest == [] {
        AddHere(Null, last, v);
      } else {
        NothingBelowNull(rest[0]);
        MakingThrows(Null, rest, last, v);
      }
    }
  }

  lemma NothingBelowNull(t: string)
    ensures Child(Null, t).Throws?
  {
  }

  // ----- operations in terms of each other -----------------------------------------

  function ReplaceOp(path: string, v: Json): Json {
    Object(map["op" := String("replace"), "path" := String(path), "value" := v])
  }

  function AddOp(path: string, v: Json): Json {
    Object(map["op" := String("add"), "path" := String(path), "value" := v])
  }

  function RemoveOp(path: string): Json {
    Object(map["op" := String("remove"), "path" := String(path)])
  }

  function MoveOp(from: string, path: string): Json {
    Object(map["op" := String("move"), "from" := String(from), "path" := String(path)])
  }

  function CopyOp(from: string, path: string): Json {
    Object(map["op" := String("copy"), "from" := String(from), "path" := String(path)])
  }

  function CheckOp(path: string, v: Json): Json {
    Object(map["op" := String("test"), "path" := String(path), "value" := v])
  }

  lemma AddOpMeans(doc: Json, path: string, v: Json)
    requires Parsed(path).Ok?
    ensures ApplyOp(doc, AddOp(path, v)) == OperationAdd(doc, Parsed(path).value, v)
  {
    hide OperationAdd, Parsed;
  }

  lemma RemoveOpMeans(doc: Json, path: string)
    requires Parsed(path).Ok?
    ensures ApplyOp(doc, RemoveOp(path)) == OperationRemove(doc, Parsed(path).value)
  {
    hide OperationAdd, OperationRemove, Parsed;
  }

  lemma TwoOps(doc: Json, a: Json, b: Json)
    ensures ApplyOps(doc, [a, b]) == if ApplyOp(doc, a).Ok? then ApplyOp(ApplyOp(doc, a).value, b) else ApplyOp(doc, a)
  {
    hide ApplyOp;
    assert [a, b][1..] == [b];
    if ApplyOp(doc, a).Ok? {
      var d := ApplyOp(doc, a).value;
      assert ApplyOps(d, [b]) == ApplyOp(d, b) by { assert [b][1..] == []; }
    }
  }

  /** "copy" is "add" with the value found at "from" (section 4.5 of RFC 6902). */
  lemma CopyIsAdd(doc: Json, from: string, path: string)
    requires Parsed(from).Ok? && Parsed(path).Ok?
    ensures var found := At(doc, Parsed(from).value);
            ApplyOp(doc, CopyOp(from, path)) ==
            if found.Ok? then ApplyOp(doc, AddOp(path, found.value)) else found
  {
    hide OperationAdd, OperationRemove, Parsed, At;
    var found := At(doc, Parsed(from).value);
    if found.Ok? { AddOpMeans(doc, path, found.value); }
  }

  /** "move" is "remove" at "from" and then "add" with the value that was there (section 4.4). */
  lemma MoveIsRemoveThenAdd(doc: Json, from: string, path: string)
    requires Parsed(from).Ok? && Parsed(path).Ok?
    ensures var found := At(doc, Parsed(from).value);
            ApplyOp(doc, MoveOp(from, path)) ==
            if found.Ok? then ApplyOps(doc, [RemoveOp(from), AddOp(path, found.value)]) else found
  {
    hide OperationAdd, OperationRemove, Parsed, At, ApplyOps;
    var found := At(doc, Parsed(from).value);
    if found.Ok? {
      TwoOps(doc, RemoveOp(from), AddOp(path, found.value));
      RemoveOpMeans(doc, from);
      var d := ApplyOp(doc, RemoveOp(from));
      if d.Ok? { AddOpMeans(d.value, path, found.value); }
    }
  }

  lemma MoveOpMeans(doc: Json, from: string, path: string)
    requires Parsed(from).Ok? && Parsed(path).Ok?
    ensures var found, removed := At(doc, Parsed(from).value), OperationRemove(doc, Parsed(from).value);
            ApplyOp(doc, MoveOp(from, path)) ==
            if found.Throws? then found else if removed.Throws? then removed
            else OperationAdd(removed.value, Parsed(path).value, found.value)
  {
    hide OperationAdd, OperationRemove, Parsed, At;
  }

  /** Exactly when "move" succeeds: there is a value at "from", which is not the root, and it
      can be added at the pointer once it is gone from there. */
  lemma MoveSucceeds(doc: Json, from: string, path: string)
    requires Parsed(from).Ok? && Parsed(path).Ok?
    ensures var f, p := Parsed(from).value, Parsed(path).value;
            && (f != [] && At(doc, f).Ok? ==> OperationRemove(doc, f).Ok?)
            && (ApplyOp(doc, MoveOp(from, path)).Ok? <==>
                f != [] && At(doc, f).Ok? && CanAdd(OperationRemove(doc, f).value, p))
  {
    hide OperationAdd, OperationRemove, Parsed, At, CanAdd, ApplyOp;
    var f, p := Parsed(from).value, Parsed(path).value;
    MoveOpMeans(doc, from, path);
    RemoveFound(doc, f);
    if At(doc, f).Ok? && OperationRemove(doc, f).Ok? {
      AddSucceeds(OperationRemove(doc, f).value, p, At(doc, f).value);
    }
  }

  /** A value that is found can be removed, unless it is the root. */
  lemma RemoveFound(doc: Json, f: seq<string>)
    ensures At(doc, f).Ok? ==> (OperationRemove(doc, f).Ok? <==> f != [])
  {
    hide OperationRemove, At, Child;
    if f == [] {
      RootStays(doc);
    } else {
      var p, last := f[..|f| - 1], f[|f| - 1];
      assert p + [last] == f;
      AtConcat(doc, p, [last]);
      if At(doc, f).Ok? {
        AtStep(doc, p, last);
        RemoveSucceeds(doc, p, last);
      }
    }
  }

  lemma RootStays(doc: Json)
    ensures OperationRemove(doc, []).Throws?
  {
  }

  /** Section 4.4 of RFC 6902 forbids moving a value into one of its children; the library does
      not look: moved from "/0" to "/0/b" the first element ends up in the next one. */
  lemma MoveIntoOwnChild(v: Json, m: map<string, Json>)
    ensures ApplyOp(Array([v, Object(m)]), MoveOp("/0", "/0/b")) == Ok(Array([Object(m["b" := v])]))
  {
    hide OperationAdd, OperationRemove, Parsed, At, ApplyOp;
    var doc := Array([v, Object(m)]);
    IndexPointers();
    MoveOpMeans(doc, "/0", "/0/b");
    FirstOfTwo(v, Object(m));
    IntoFirst(m, v);
  }

  lemma IndexPointers()
    ensures Parsed("/0") == Ok(["0"]) && Parsed("/0/b") == Ok(["0", "b"])
  {
    hide Parsed, ToText;
    IndexTexts();
    ParsePrint(["0"]);
    ParsePrint(["0", "b"]);
  }

  lemma IndexTexts()
    ensures ToText(["0"]) == "/0" && ToText(["0", "b"]) == "/0/b"
  {
    hide Escaped, ToText;
    ToTextOfNone();
    assert [] + ["0"] == ["0"] && ["0"] + ["b"] == ["0", "b"];
    ToTextAppend([], "0");
    ToTextAppend(["0"], "b");
    PlainCharacter('0');
    PlainCharacter('b');
  }

  lemma ZeroIsIndex()
    ensures ArrayIndex("0") == Ok(0)
  {
    ArrayIndexOfText(0);
  }

  lemma FirstOfTwo(v: Json, w: Json)
    ensures At(Array([v, w]), ["0"]) == Ok(v) && OperationRemove(Array([v, w]), ["0"]) == Ok(Array([w]))
  {
    hide ArrayIndex, At, Put, OperationRemove;
    ZeroIsIndex();
    AtOne(Array([v, w]), "0");
    assert [v, w][..0] + [v, w][1..] == [w];
    AtRoot(Array([v, w]));
    PutAtRoot(Array([v, w]), Array([w]));
    assert [] + ["0"] == ["0"];
    RemoveAt(Array([v, w]), [], "0");
  }

  lemma PutAtRoot(doc: Json, v: Json)
    ensures Put(doc, [], v) == v
  {
  }

  lemma IntoFirst(m: map<string, Json>, v: Json)
    ensures OperationAdd(Array([Object(m)]), ["0", "b"], v) == Ok(Array([Object(m["b" := v])]))
  {
    hide ArrayIndex, At, OperationAdd;
    var doc := Array([Object(m)]);
    ZeroIsIndex();
    AtOne(doc, "0");
    assert ["0"] + ["b"] == ["0", "b"];
    AddAt(doc, ["0"], "b", v);
    assert ["0"][1..] == [];
    assert Put(doc, ["0"], Object(m["b" := v])) == Array([Object(m["b" := v])]);
  }

  lemma ChildReplaced(parent: Json, last: string, v: Json)
    requires Child(parent, last).Ok?
    ensures RemoveChild(parent, last).Ok?
    ensures At(parent, [last]).Ok? && AddChild(RemoveChild(parent, last).value, last, v) == Ok(Put(parent, [last], v))
  {
    AtOne(parent, last);
    assert [last][1..] == [];
    match parent
    case Object(m) => assert (m - {last})[last := v] == m[last := v];
    case Array(a) =>
      var idx := ArrayIndex(last).value;
      var b := a[..idx] + a[idx + 1..];
      assert b[..idx] + [v] + b[idx..] == a[idx := v];
  }

  /** "replace" is "remove" and then "add" at the same place (section 4.3), except at the root,
      which cannot be removed. */
  lemma ReplaceIsRemoveThenAdd(doc: Json, p: seq<string>, last: string, path: string, v: Json)
    requires Parsed(path) == Ok(p + [last]) && At(doc, p + [last]).Ok?
    ensures ApplyOp(doc, ReplaceOp(path, v)) == ApplyOps(doc, [RemoveOp(path), AddOp(path, v)])
    ensures ApplyOp(doc, ReplaceOp(path, v)) == Ok(Put(doc, p + [last], v))
  {
    hide OperationAdd, OperationRemove, Parsed, ApplyOps, ApplyOp, At, Put, RemoveChild, AddChild, Child;
    ReplaceMeans(doc, path, v);
    var without := WithoutChild(doc, p, last, v);
    TwoOps(doc, RemoveOp(path), AddOp(path, v));
    RemoveOpMeans(doc, path);
    AddOpMeans(without, path, v);
  }

  /** The document between the two operations. */
  lemma WithoutChild(doc: Json, p: seq<string>, last: string, v: Json) returns (without: Json)
    requires At(doc, p + [last]).Ok?
    ensures OperationRemove(doc, p + [last]) == Ok(without)
    ensures OperationAdd(without, p + [last], v) == Ok(Put(doc, p + [last], v))
  {
    hide OperationAdd, OperationRemove, At, Put, RemoveChild, AddChild, Child;
    AtConcat(doc, p, [last]);
    var parent := At(doc, p).value;
    AtStep(doc, p, last);
    AtOne(parent, last);
    ChildReplaced(parent, last, v);
    var removed := RemoveChild(parent, last).value;
    without := Put(doc, p, removed);
    RemoveAt(doc, p, last);
    AtPut(doc, p, removed);
    AddAt(without, p, last, v);
    PutPut(doc, p, removed, Put(parent, [last], v));
    PutConcat(doc, p, [last], v);
  }

  lemma AtOne(j: Json, t: string)
    ensures At(j, [t]) == Child(j, t)
  {
    hide Child;
    assert [t][1..] == [];
  }

  /** "replace" succeeds exactly if there is a value, at the root or below, and exchanges just
      that value; otherwise it throws the error of the look-up. */
  lemma ReplaceMeans(doc: Json, path: string, v: Json)
    requires Parsed(path).Ok?
    ensures var found := At(doc, Parsed(path).value);
            ApplyOp(doc, ReplaceOp(path, v)) == if found.Ok? then Ok(Put(doc, Parsed(path).value, v)) else found
  {
    hide OperationAdd, OperationRemove, Parsed, At, Put;
  }

  /** "test" lets the document pass unchanged exactly when the value found equals the given one;
      otherwise it throws 501, or the error of a pointer that is malformed for this document. */
  lemma TestPasses(doc: Json, path: string, v: Json)
    requires Parsed(path).Ok?
    ensures var found := At(doc, Parsed(path).value);
            && (ApplyOp(doc, CheckOp(path, v)).Ok? <==> found.Ok? && LibEq(found.value, v))
            && (ApplyOp(doc, CheckOp(path, v)).Ok? ==> ApplyOp(doc, CheckOp(path, v)).value == doc)
            && (ApplyOp(doc, CheckOp(path, v)).Throws? ==>
                  ApplyOp(doc, CheckOp(path, v)).error ==
                  if found.Throws? && !found.error.OutOfRange? then found.error else OtherError(501))
  {
    hide Parsed, At, LibEq;
  }

  /** An operation with all the members that its name asks for. */
  predicate WellFormed(op: Json) {
    && op.Object?
    && "op" in op.members && "path" in op.members && op.members["path"].String?
    && (op.members["op"] == String("remove") ||
        (op.members["op"] in [String("add"), String("replace"), String("test")] && "value" in op.members) ||
        (op.members["op"] in [String("move"), String("copy")] && "from" in op.members && op.members["from"].String?))
  }

  /** Every other operation is refused, whatever the document: with error 104 if it is no
      object, with the pointer's own error if its path does not parse, and otherwise with 105,
      or with 501 where "test" looks at a missing place before it looks for its value. */
  lemma MalformedIsRefused(doc: Json, op: Json)
    requires !WellFormed(op)
    ensures !op.Object? ==> ApplyOp(doc, op) == Throws(ParseError(104))
    ensures op.Object? && !HasText(op.members, "op") ==> ApplyOp(doc, op) == Throws(ParseError(105))
    ensures op.Object? && !HasText(op.members, "path") ==> ApplyOp(doc, op) == Throws(ParseError(105))
    ensures op.Object? && HasText(op.members, "op") && HasText(op.members, "path") ==>
              var ptr := Parsed(op.members["path"].s);
              ApplyOp(doc, op) == Throws(
                if ptr.Throws? then ptr.error
                else if op.members["op"] != String("test") || At(doc, ptr.value).Ok? then ParseError(105)
                else if At(doc, ptr.value).error.OutOfRange? then OtherError(501)
                else At(doc, ptr.value).error)
  {
    hide Parsed, LibEq, OperationAdd, OperationRemove, At;
  }

  predicate HasText(op: map<string, Json>, name: string) {
    name in op && op[name].String?
  }

  /** A well-formed operation whose pointers do not parse throws the error of its path, or else
      that of its "from". */
  lemma PointersMustParse(doc: Json, op: Json)
    requires WellFormed(op)
    ensures Parsed(op.members["path"].s).Throws? ==>
              ApplyOp(doc, op) == Throws(Parsed(op.members["path"].s).error)
    ensures Parsed(op.members["path"].s).Ok? && op.members["op"] in [String("move"), String("copy")] &&
            Parsed(op.members["from"].s).Throws? ==>
              ApplyOp(doc, op) == Throws(Parsed(op.members["from"].s).error)
  {
    hide Parsed, LibEq, OperationAdd, OperationRemove, At;
  }
}
