/**
 Exactly which objects `unflatten` accepts.  The entries are visited in key order; `paths` are
 their keys, read as JSON pointers.
 */
module UnflattenAccepts {
  import opened JsonValue
  import opened JsonPointer
  import opened StringEscape
  import opened TextOrder
  import opened Flatten
  import opened FlattenSteps

  // ----- what creating one entry does to every place --------------------------------

  /** `q` leads to something above `p`. */
  predicate Above(q: Path, p: Path) {
    |q| < |p| && p[..|q|] == q
  }

  /** Nothing is there, or only null. */
  predicate Nothing(r: Result<Json>) {
    r.Throws? || r.value.Null?
  }

  /** What a first token makes of null. */
  predicate Made(j: Json, token: string) {
    if token == "0" then j.Array? else j.Object?
  }

  /** The walk gets past this value with this token. */
  predicate Passable(r: Result<Json>, token: string) {
    r.Ok? ==> r.value.Null? || r.value.Object? || (r.value.Array? && ArrayIndex(token).Ok?)
  }

  /** What the place `q` holds when `v` has been put at `p`. */
  predicate Effect(x: Json, y: Json, p: Path, v: Json, q: Path) {
    if q == p then At(y, q) == Ok(v)
    else if Above(q, p) then
      && At(y, q).Ok?
      && if Nothing(At(x, q)) then Made(At(y, q).value, p[|q|])
         else At(y, q).value.Array? == At(x, q).value.Array? && At(y, q).value.Object? == At(x, q).value.Object?
    else if Above(p, q) then At(y, q).Throws?
    else if At(x, q).Ok? then At(y, q) == At(x, q)
    else Nothing(At(y, q))
  }

  /** What the first step of `get_and_create` continues with. */
  function Inner(x: Json, t: string): Json {
    if Child(x, t).Ok? then Child(x, t).value else Null
  }

  /** One step: it gets past this value or not, it finds what it has put, and it leaves the
      other children alone. */
  lemma CreateOne(x: Json, p: Path, v: Json)
    requires p != []
    ensures CreateAt(x, p, v).Ok? <==> Passable(Ok(x), p[0]) && CreateAt(Inner(x, p[0]), p[1..], v).Ok?
    ensures CreateAt(x, p, v).Ok? ==>
              var y := CreateAt(x, p, v).value;
              && Child(y, p[0]) == CreateAt(Inner(x, p[0]), p[1..], v)
              && (if x.Null? then Made(y, p[0]) else x.Array? == y.Array? && x.Object? == y.Object?)
              && (x.Null? || x.Array? || x.Object?)
  {
    hide IndexText;
    IndexZero();
    ArrayIndexOfText(0);
    if x.Array? && ArrayIndex(p[0]).Ok? {
      var idx := ArrayIndex(p[0]).value;
      DashIsNoIndex();
      assert Filled(x.items, idx)[idx] == Inner(x, p[0]);
    }
  }

  lemma CreateOther(x: Json, p: Path, v: Json, t: string)
    requires p != [] && CreateAt(x, p, v).Ok? && t != p[0]
    ensures var y := CreateAt(x, p, v).value;
            if Child(x, t).Ok? then Child(y, t) == Child(x, t) else Nothing(Child(y, t))
  {
    hide IndexText;
    IndexZero();
    if (x.Array? || x.Null?) && ArrayIndex(t).Ok? {
      ArrayIndexIsCanonical(t);
      if ArrayIndex(p[0]).Ok? { ArrayIndexIsCanonical(p[0]); }
    }
  }

  lemma {:induction false} CreateEffect(x: Json, p: Path, v: Json, q: Path)
    requires CreateAt(x, p, v).Ok? && v.IsPrimitive()
    ensures Effect(x, CreateAt(x, p, v).value, p, v, q)
    decreases |p|
  {
    hide CreateAt, Child;
    var y := CreateAt(x, p, v).value;
    if p == [] {
      CreateNothing(x, v, q);
    } else if q == [] {
      CreateOne(x, p, v);
    } else if q[0] == p[0] {
      CreateOne(x, p, v);
      CreateEffect(Inner(x, p[0]), p[1..], v, q[1..]);
      PathTails(p, q);
      NullHasNothing(q[1..]);
    } else {
      CreateOther(x, p, v, q[0]);
      if Child(x, q[0]).Throws? && Child(y, q[0]).Ok? { NullHasNothing(q[1..]); }
    }
  }

  lemma CreateNothing(x: Json, v: Json, q: Path)
    requires v.IsPrimitive()
    ensures CreateAt(x, [], v) == Ok(v) && (q != [] ==> At(v, q).Throws?)
  {
  }

  lemma NullHasNothing(q: Path)
    ensures Nothing(At(Null, q)) && (q != [] ==> At(Null, q).Throws?)
  {
  }

  lemma PathTails(p: Path, q: Path)
    requires p != [] && q != [] && p[0] == q[0]
    ensures p == q <==> p[1..] == q[1..]
    ensures Above(q, p) == Above(q[1..], p[1..]) && Above(p, q) == Above(p[1..], q[1..])
    ensures Above(q, p) ==> p[|q|] == p[1..][|q[1..]|]
  {
    assert p == [p[0]] + p[1..] && q == [q[0]] + q[1..];
    if |q| <= |p| { assert p[..|q|] == [p[0]] + p[1..][..|q| - 1]; }
    if |p| <= |q| { assert q[..|p|] == [q[0]] + q[1..][..|p| - 1]; }
  }

  /** An entry can be created exactly if the walk gets past every value on its way. */
  lemma {:induction false} CreateSucceeds(x: Json, p: Path, v: Json)
    ensures CreateAt(x, p, v).Ok? <==> forall n | 0 <= n < |p| :: Passable(At(x, p[..n]), p[n])
    decreases |p|
  {
    hide CreateAt, Child, ArrayIndex;
    if p == [] {
      CreateNothing(x, Null, []);
      CreateRoot(x, v);
    } else {
      var y, r := Inner(x, p[0]), p[1..];
      CreateOne(x, p, v);
      CreateSucceeds(y, r, v);
      assert p[..0] == [] && At(x, []) == Ok(x);
      forall n | 0 <= n < |r|
        ensures Passable(At(x, p[..n + 1]), p[n + 1]) <==> Passable(At(y, r[..n]), r[n])
      {
        assert p[..n + 1][0] == p[0] && p[..n + 1][1..] == r[..n] && p[n + 1] == r[n];
        NullHasNothing(r[..n]);
      }
      assert forall n | 1 <= n < |p| :: Passable(At(x, p[..n]), p[n]) <==> Passable(At(y, r[..n - 1]), r[n - 1]) by {
        forall n | 1 <= n < |p|
          ensures Passable(At(x, p[..n]), p[n]) <==> Passable(At(y, r[..n - 1]), r[n - 1])
        {
          var k := n - 1;
          assert Passable(At(x, p[..k + 1]), p[k + 1]) <==> Passable(At(y, r[..k]), r[k]);
        }
      }
      Shift(x, y, p);
    }
  }

  lemma CreateRoot(x: Json, v: Json)
    ensures CreateAt(x, [], v) == Ok(v)
  {
  }

  lemma Shift(x: Json, y: Json, p: Path)
    requires p != []
    requires forall n | 1 <= n < |p| ::
               Passable(At(x, p[..n]), p[n]) <==> Passable(At(y, p[1..][..n - 1]), p[1..][n - 1])
    ensures (forall n | 0 <= n < |p| :: Passable(At(x, p[..n]), p[n])) <==>
            Passable(At(x, p[..0]), p[0]) && forall n | 0 <= n < |p[1..]| :: Passable(At(y, p[1..][..n]), p[1..][n])
  {
    hide Passable, At;
    var r := p[1..];
    if forall n | 0 <= n < |p| :: Passable(At(x, p[..n]), p[n]) {
      forall n | 0 <= n < |r| ensures Passable(At(y, r[..n]), r[n]) {
        var k := n + 1;
        assert Passable(At(x, p[..k]), p[k]);
      }
    }
  }

  /** The error with which a walk ends at a value that it does not get past. */
  function StopError(x: Json, token: string): Exception {
    if !x.Array? then TypeError(313) else if token == "-" then OutOfRange(404) else IndexRefusal(token)
  }

  lemma CreateOneThrows(x: Json, p: Path, v: Json)
    requires p != [] && CreateAt(x, p, v).Throws?
    ensures CreateAt(x, p, v) ==
            if Passable(Ok(x), p[0]) then CreateAt(Inner(x, p[0]), p[1..], v) else Throws(StopError(x, p[0]))
  {
    hide IndexText, IndexRefusal;
    if x.Array? {
      DashIsNoIndex();
      DashIsNotRead();
      if ArrayIndex(p[0]).Ok? {
        var idx := ArrayIndex(p[0]).value;
        assert Filled(x.items, idx)[idx] == Inner(x, p[0]);
      } else if p[0] != "-" {
        IndexRefused(p[0]);
      }
    }
  }

  /** An entry that cannot be created is refused where the walk first stops: with the error for
      the token at an array, where "-" is read as an index, and with 313 at any other value. */
  lemma CreateThrows(x: Json, p: Path, v: Json)
    requires CreateAt(x, p, v).Throws?
    ensures exists n | 0 <= n < |p| ::
              && At(x, p[..n]).Ok? && !Passable(At(x, p[..n]), p[n])
              && CreateAt(x, p, v) == Throws(
                   if !At(x, p[..n]).value.Array? then TypeError(313)
                   else if p[n] == "-" then OutOfRange(404) else IndexRefusal(p[n]))
  {
    hide CreateAt, Passable, At, IndexRefusal;
    CreateStops(x, p, v);
  }

  lemma {:induction false} CreateStops(x: Json, p: Path, v: Json)
    requires CreateAt(x, p, v).Throws?
    ensures exists n | 0 <= n < |p| ::
              && At(x, p[..n]).Ok? && !Passable(At(x, p[..n]), p[n])
              && CreateAt(x, p, v) == Throws(StopError(At(x, p[..n]).value, p[n]))
    decreases |p|
  {
    hide CreateAt, Child, Passable, StopError;
    CreateNothing(x, Null, []);
    CreateRoot(x, v);
    CreateOneThrows(x, p, v);
    if !Passable(Ok(x), p[0]) {
      assert p[..0] == [] && At(x, p[..0]) == Ok(x);
    } else {
      var y, r := Inner(x, p[0]), p[1..];
      CreateStops(y, r, v);
      var n :| 0 <= n < |r| && At(y, r[..n]).Ok? && !Passable(At(y, r[..n]), r[n])
               && CreateAt(y, r, v) == Throws(StopError(At(y, r[..n]).value, r[n]));
      assert p[..n + 1][0] == p[0] && p[..n + 1][1..] == r[..n] && p[n + 1] == r[n];
      StopIsInside(x, p[0], r[..n], r[n]);
      assert At(x, p[..n + 1]) == At(y, r[..n]);
    }
  }

  /** No walk stops at what it has just made. */
  lemma StopIsInside(x: Json, t: string, r: Path, u: string)
    requires At(Inner(x, t), r).Ok? && !Passable(At(Inner(x, t), r), u)
    ensures Child(x, t).Ok?
  {
    hide Child;
    NullHasNothing(r);
  }

  // ----- a list of entries --------------------------------------------------------------

  /** The value after the first `n` entries. */
  function Built(paths: seq<Path>, vals: seq<Json>, n: nat): Result<Json>
    requires n <= |paths| == |vals|
  {
    if n == 0 then Ok(Null) else
      var x :- Built(paths, vals, n - 1);
      CreateAt(x, paths[n - 1], vals[n - 1])
  }

  /** No two entries have the same path, and an entry above another comes before it. */
  predicate Ordered(paths: seq<Path>) {
    && (forall k, l | 0 <= k < |paths| && 0 <= l < |paths| && paths[k] == paths[l] :: k == l)
    && (forall k, l | 0 <= k < |paths| && 0 <= l < |paths| && Above(paths[k], paths[l]) :: k < l)
  }

  /** The first entry that leads below `q`; its next token decides what `q` becomes. */
  predicate FirstBelow(paths: seq<Path>, k: nat, q: Path)
    requires k < |paths|
  {
    Above(q, paths[k]) && forall l | 0 <= l < k :: !Above(q, paths[l])
  }

  /** The entry gets past the place above it with `n` tokens: no earlier entry has put anything
      but null there, and if the first entry below that place made an array of it, the next
      token is an array index. */
  predicate FitsAt(paths: seq<Path>, vals: seq<Json>, i: nat, n: nat)
    requires i < |paths| == |vals| && n < |paths[i]|
  {
    var q := paths[i][..n];
    && (forall k | 0 <= k < i && paths[k] == q :: vals[k].Null?)
    && (forall k | 0 <= k < i && FirstBelow(paths, k, q) && paths[k][n] == "0" :: ArrayIndex(paths[i][n]).Ok?)
  }

  predicate Fits(paths: seq<Path>, vals: seq<Json>, i: nat)
    requires i < |paths| == |vals|
  {
    forall n | 0 <= n < |paths[i]| :: FitsAt(paths, vals, i, n)
  }

  predicate NoneBelow(paths: seq<Path>, i: nat, q: Path)
    requires i <= |paths|
  {
    forall k | 0 <= k < i :: !Above(q, paths[k])
  }

  /** What the place `q` holds after the first `i` entries. */
  predicate ShapeAt(x: Json, paths: seq<Path>, vals: seq<Json>, i: nat, q: Path)
    requires i <= |paths| == |vals|
  {
    && (forall k | 0 <= k < i && FirstBelow(paths, k, q) :: At(x, q).Ok? && Made(At(x, q).value, paths[k][|q|]))
    && (NoneBelow(paths, i, q) ==>
          && (forall k | 0 <= k < i && paths[k] == q :: At(x, q) == Ok(vals[k]))
          && ((forall k | 0 <= k < i :: paths[k] != q) ==> Nothing(At(x, q))))
  }

  lemma {:induction false} FirstOfThose(paths: seq<Path>, i: nat, q: Path) returns (k: nat)
    requires i <= |paths| && !NoneBelow(paths, i, q)
    ensures k < i && FirstBelow(paths, k, q)
  {
    if NoneBelow(paths, i - 1, q) {
      k := i - 1;
    } else {
      k := FirstOfThose(paths, i - 1, q);
    }
  }

  lemma OnlyOneIsFirst(paths: seq<Path>, k: nat, l: nat, q: Path)
    requires k < |paths| && l < |paths| && FirstBelow(paths, k, q) && FirstBelow(paths, l, q)
    ensures k == l
  {
  }

  /** The walk gets past a place exactly if the entry fits there. */
  lemma PassesIfFits(x: Json, paths: seq<Path>, vals: seq<Json>, i: nat, n: nat)
    requires i < |paths| == |vals| && n < |paths[i]| && Ordered(paths)
    requires forall k | 0 <= k < |vals| :: vals[k].IsPrimitive()
    requires ShapeAt(x, paths, vals, i, paths[i][..n])
    requires forall l | 0 <= l < i :: Fits(paths, vals, l)
    ensures Passable(At(x, paths[i][..n]), paths[i][n]) <==> FitsAt(paths, vals, i, n)
  {
    hide At, ArrayIndex;
    var q := paths[i][..n];
    if !NoneBelow(paths, i, q) {
      var f := FirstOfThose(paths, i, q);
      assert Fits(paths, vals, f);
      assert FitsAt(paths, vals, f, n) && paths[f][..n] == q;
      forall k | 0 <= k < i && FirstBelow(paths, k, q) ensures k == f { OnlyOneIsFirst(paths, k, f, q); }
      forall k | 0 <= k < i && paths[k] == q ensures vals[k].Null? {
        assert Above(paths[k], paths[f]);
      }
    }
  }

  /** One more entry: the places above it, */
  lemma ShapeAbove(x: Json, y: Json, paths: seq<Path>, vals: seq<Json>, i: nat, q: Path)
    requires i < |paths| == |vals| && Above(q, paths[i])
    requires ShapeAt(x, paths, vals, i, q) && FitsAt(paths, vals, i, |q|)
    requires Effect(x, y, paths[i], vals[i], q)
    ensures ShapeAt(y, paths, vals, i + 1, q)
  {
    hide At, ArrayIndex, Effect, ShapeAt, FirstBelow, Made;
    assert !NoneBelow(paths, i + 1, q) by { hide NoneBelow; BelowAfter(paths, i, q); }
    var f;
    if NoneBelow(paths, i, q) {
      f := i;
      assert FirstBelow(paths, i, q) by { IsFirst(paths, i, q); }
      FirstMakes(x, y, paths, vals, i, q);
    } else {
      f := FirstOfThose(paths, i, q);
      LaterKeeps(x, y, paths, vals, i, q, f);
    }
    ShapeByFirst(y, paths, vals, i + 1, q, f);
  }

  lemma BelowAfter(paths: seq<Path>, i: nat, q: Path)
    requires i < |paths| && Above(q, paths[i])
    ensures !NoneBelow(paths, i + 1, q)
  {
  }

  lemma IsFirst(paths: seq<Path>, i: nat, q: Path)
    requires i < |paths| && Above(q, paths[i]) && NoneBelow(paths, i, q)
    ensures FirstBelow(paths, i, q)
  {
  }

  /** The first entry below a place decides what it becomes, */
  lemma FirstMakes(x: Json, y: Json, paths: seq<Path>, vals: seq<Json>, i: nat, q: Path)
    requires i < |paths| == |vals| && Above(q, paths[i]) && NoneBelow(paths, i, q)
    requires ShapeAt(x, paths, vals, i, q) && FitsAt(paths, vals, i, |q|)
    requires Effect(x, y, paths[i], vals[i], q)
    ensures At(y, q).Ok? && Made(At(y, q).value, paths[i][|q|])
  {
    hide At, ArrayIndex, Made, FirstBelow;
    assert paths[i][..|q|] == q;
    assert Nothing(At(x, q));
  }

  /** and later ones keep it. */
  lemma LaterKeeps(x: Json, y: Json, paths: seq<Path>, vals: seq<Json>, i: nat, q: Path, f: nat)
    requires i < |paths| == |vals| && Above(q, paths[i]) && f < i && FirstBelow(paths, f, q)
    requires ShapeAt(x, paths, vals, i, q) && Effect(x, y, paths[i], vals[i], q)
    ensures At(y, q).Ok? && Made(At(y, q).value, paths[f][|q|])
  {
    hide At, ArrayIndex;
    assert At(x, q).Ok? && Made(At(x, q).value, paths[f][|q|]);
  }

  lemma ShapeByFirst(y: Json, paths: seq<Path>, vals: seq<Json>, i: nat, q: Path, f: nat)
    requires i <= |paths| == |vals| && f < i && FirstBelow(paths, f, q) && !NoneBelow(paths, i, q)
    requires At(y, q).Ok? && Made(At(y, q).value, paths[f][|q|])
    ensures ShapeAt(y, paths, vals, i, q)
  {
    hide At, Made, FirstBelow, NoneBelow;
    forall k | 0 <= k < i && FirstBelow(paths, k, q) ensures k == f { OnlyOneIsFirst(paths, k, f, q); }
  }

  /** its own place, */
  lemma ShapeOwn(x: Json, y: Json, paths: seq<Path>, vals: seq<Json>, i: nat)
    requires i < |paths| == |vals| && Ordered(paths) && Effect(x, y, paths[i], vals[i], paths[i])
    ensures ShapeAt(y, paths, vals, i + 1, paths[i])
  {
    hide At, ArrayIndex;
    assert forall k | 0 <= k < i + 1 :: !Above(paths[i], paths[k]);
  }

  /** the places below it, */
  lemma ShapeBelow(x: Json, y: Json, paths: seq<Path>, vals: seq<Json>, i: nat, q: Path)
    requires i < |paths| == |vals| && Ordered(paths) && Above(paths[i], q) && Effect(x, y, paths[i], vals[i], q)
    ensures ShapeAt(y, paths, vals, i + 1, q)
  {
    hide At, ArrayIndex;
    forall k | 0 <= k < i + 1 ensures paths[k] != q && !Above(q, paths[k]) {
      if Above(q, paths[k]) { AboveAbove(paths[i], q, paths[k]); }
    }
  }

  lemma AboveAbove(p: Path, q: Path, r: Path)
    requires Above(p, q) && Above(q, r)
    ensures Above(p, r)
  {
    assert r[..|p|] == r[..|q|][..|p|];
  }

  /** and all others. */
  lemma ShapeBeside(x: Json, y: Json, paths: seq<Path>, vals: seq<Json>, i: nat, q: Path)
    requires i < |paths| == |vals| && !Above(q, paths[i]) && q != paths[i] && !Above(paths[i], q)
    requires ShapeAt(x, paths, vals, i, q) && Effect(x, y, paths[i], vals[i], q)
    ensures ShapeAt(y, paths, vals, i + 1, q)
  {
    hide At, ArrayIndex, Above, Made;
    if !NoneBelow(paths, i, q) {
      var f := FirstOfThose(paths, i, q);
      assert At(x, q).Ok?;
    }
  }

  lemma ShapeGrows(x: Json, y: Json, paths: seq<Path>, vals: seq<Json>, i: nat, q: Path)
    requires i < |paths| == |vals| && Ordered(paths)
    requires ShapeAt(x, paths, vals, i, q) && Fits(paths, vals, i)
    requires Effect(x, y, paths[i], vals[i], q)
    ensures ShapeAt(y, paths, vals, i + 1, q)
  {
    hide ShapeAt, Effect, FitsAt, Ordered;
    if Above(q, paths[i]) {
      assert FitsAt(paths, vals, i, |q|);
      ShapeAbove(x, y, paths, vals, i, q);
    } else if q == paths[i] {
      ShapeOwn(x, y, paths, vals, i);
    } else if Above(paths[i], q) {
      ShapeBelow(x, y, paths, vals, i, q);
    } else {
      ShapeBeside(x, y, paths, vals, i, q);
    }
  }

  ghost predicate Shape(x: Json, paths: seq<Path>, vals: seq<Json>, i: nat)
    requires i <= |paths| == |vals|
  {
    forall q: Path :: ShapeAt(x, paths, vals, i, q)
  }

  /** All entries are created exactly if all of them fit. */
  lemma {:induction false} BuiltIfFits(paths: seq<Path>, vals: seq<Json>, n: nat)
    requires n <= |paths| == |vals| && Ordered(paths)
    requires forall k | 0 <= k < |vals| :: vals[k].IsPrimitive()
    ensures Built(paths, vals, n).Ok? <==> forall i | 0 <= i < n :: Fits(paths, vals, i)
    ensures Built(paths, vals, n).Ok? ==> Shape(Built(paths, vals, n).value, paths, vals, n)
  {
    hide ShapeAt, Ordered, Fits, FitsAt, Effect, CreateAt, At, Passable;
    if n == 0 {
      forall q: Path ensures ShapeAt(Null, paths, vals, 0, q) { ShapeOfNull(paths, vals, q); }
    } else {
      var i := n - 1;
      BuiltIfFits(paths, vals, i);
      if Built(paths, vals, i).Ok? {
        var x := Built(paths, vals, i).value;
        CreateSucceeds(x, paths[i], vals[i]);
        forall m | 0 <= m < |paths[i]|
          ensures Passable(At(x, paths[i][..m]), paths[i][m]) <==> FitsAt(paths, vals, i, m)
        {
          PassesIfFits(x, paths, vals, i, m);
        }
        FitsEverywhere(paths, vals, i);
        if CreateAt(x, paths[i], vals[i]).Ok? {
          var y := CreateAt(x, paths[i], vals[i]).value;
          forall q: Path ensures ShapeAt(y, paths, vals, n, q) {
            CreateEffect(x, paths[i], vals[i], q);
            ShapeGrows(x, y, paths, vals, i, q);
          }
        }
      }
    }
  }

  lemma FitsEverywhere(paths: seq<Path>, vals: seq<Json>, i: nat)
    requires i < |paths| == |vals|
    ensures Fits(paths, vals, i) <==> forall n | 0 <= n < |paths[i]| :: FitsAt(paths, vals, i, n)
  {
  }

  lemma ShapeOfNull(paths: seq<Path>, vals: seq<Json>, q: Path)
    requires |paths| == |vals|
    ensures ShapeAt(Null, paths, vals, 0, q)
  {
    NullHasNothing(q);
  }

  // ----- the entries of an object ------------------------------------------------------

  /** Every member is primitive, and every key is a JSON pointer. */
  predicate FlatObject(m: map<string, Json>) {
    forall k | k in m :: m[k].IsPrimitive() && Parsed(k).Ok?
  }

  function PathsOf(keys: seq<string>): (paths: seq<Path>)
    requires forall k | k in keys :: Parsed(k).Ok?
    ensures |paths| == |keys| && forall i | 0 <= i < |keys| :: paths[i] == Parsed(keys[i]).value
  {
    seq(|keys|, i requires 0 <= i < |keys| => assert keys[i] in keys; Parsed(keys[i]).value)
  }

  function ValuesOf(m: map<string, Json>, keys: seq<string>): (vals: seq<Json>)
    requires forall k | k in keys :: k in m
    ensures |vals| == |keys| && forall i | 0 <= i < |keys| :: keys[i] in m && vals[i] == m[keys[i]]
  {
    seq(|keys|, i requires 0 <= i < |keys| => assert keys[i] in keys; m[keys[i]])
  }

  /** Key order is such an order. */
  lemma KeysAreOrdered(keys: seq<string>)
    requires Sorted(keys) && forall k | k in keys :: Parsed(k).Ok?
    ensures Ordered(PathsOf(keys))
  {
    hide Parsed, ToText, Less, Above;
    var paths := PathsOf(keys);
    forall i | 0 <= i < |keys| ensures ToText(paths[i]) == keys[i] {
      assert keys[i] in keys;
      PrintParse(keys[i]);
    }
    forall k, l | 0 <= k < |paths| && 0 <= l < |paths| && paths[k] == paths[l] ensures k == l {
      SortedDistinct(keys, k, l);
    }
    forall k, l | 0 <= k < |paths| && 0 <= l < |paths| && Above(paths[k], paths[l]) ensures k < l {
      AboveIsLess(paths[k], paths[l]);
      LessIsEarlier(keys, k, l);
    }
  }

  lemma AboveIsLess(q: Path, p: Path)
    requires Above(q, p)
    ensures Less(ToText(q), ToText(p))
  {
    hide ToText, Escaped;
    var r := p[|q|..];
    assert p == q + r;
    ToTextConcat(q, r);
    TextHead(r);
    CommonPrefix(ToText(q), "", ToText(r));
    assert ToText(q) + "" == ToText(q);
  }

  lemma LessIsEarlier(keys: seq<string>, k: nat, l: nat)
    requires Sorted(keys) && k < |keys| && l < |keys| && Less(keys[k], keys[l])
    ensures k < l
  {
    hide Less;
    Irreflexive(keys[k]);
    if l < k {
      Transitive(keys[k], keys[l], keys[k]);
    }
  }

  lemma {:induction false} RebuiltIsBuilt(m: map<string, Json>, keys: seq<string>, n: nat)
    requires n <= |keys| && (forall k | k in keys :: k in m) && FlatObject(m)
    ensures Rebuilt(m, keys, n) == Built(PathsOf(keys), ValuesOf(m, keys), n)
  {
    hide CreateAt, Parsed;
    if n > 0 {
      RebuiltIsBuilt(m, keys, n - 1);
      assert keys[n - 1] in keys;
    }
  }

  /** Every entry fits behind the earlier ones, in key order. */
  predicate AllFit(m: map<string, Json>)
    requires FlatObject(m)
  {
    var keys := SortedKeys(m.Keys);
    forall i | 0 <= i < |keys| :: Fits(PathsOf(keys), ValuesOf(m, keys), i)
  }

  lemma FlatObjectSucceeds(m: map<string, Json>)
    requires FlatObject(m)
    ensures Unflattened(Object(m)).Ok? <==> AllFit(m)
  {
    hide Fits, Ordered, Built, PathsOf, ValuesOf, Less, Parsed, Rebuilt;
    var keys := SortedKeys(m.Keys);
    RebuiltIsBuilt(m, keys, |keys|);
    KeysAreOrdered(keys);
    PrimitiveValues(m, keys);
    BuiltIfFits(PathsOf(keys), ValuesOf(m, keys), |keys|);
  }

  lemma PrimitiveValues(m: map<string, Json>, keys: seq<string>)
    requires FlatObject(m) && forall k | k in keys :: k in m
    ensures forall i | 0 <= i < |keys| :: ValuesOf(m, keys)[i].IsPrimitive()
  {
    hide Parsed;
  }

  /** Exactly which values `unflatten` accepts: objects whose members are all primitive, whose
      keys are all JSON pointers, and in which every entry fits behind the earlier ones. */
  lemma UnflattenSucceeds(value: Json)
    ensures Unflattened(value).Ok? <==> value.Object? && FlatObject(value.members) && AllFit(value.members)
  {
    hide AllFit, Unflattened, Parsed;
    if value.Object? && FlatObject(value.members) {
      FlatObjectSucceeds(value.members);
    } else if Unflattened(value).Ok? {
      UnflattenAcceptsOnly(value);
    }
  }

  /** What it then builds: every place below which no entry leads holds the value of its own
      entry, or nothing but null without one; every place with entries below is an array if the
      first of them goes on with "0", and an object otherwise. */
  lemma UnflattenedHolds(m: map<string, Json>, q: Path)
    requires FlatObject(m) && Unflattened(Object(m)).Ok?
    ensures var keys := SortedKeys(m.Keys);
            ShapeAt(Unflattened(Object(m)).value, PathsOf(keys), ValuesOf(m, keys), |keys|, q)
  {
    hide Fits, Ordered, Built, PathsOf, ValuesOf, Less, Parsed, Rebuilt, ShapeAt;
    var keys := SortedKeys(m.Keys);
    RebuiltIsBuilt(m, keys, |keys|);
    KeysAreOrdered(keys);
    PrimitiveValues(m, keys);
    BuiltIfFits(PathsOf(keys), ValuesOf(m, keys), |keys|);
  }

  /** Why it refuses a value: 314 if it is no object; otherwise the first entry in key order that
      cannot be put decides: 315 if it is not primitive, the error of its key if that is no JSON
      pointer, and else the error with which the walk stops. */
  lemma UnflattenThrows(value: Json)
    requires Unflattened(value).Throws?
    ensures !value.Object? ==> Unflattened(value) == Throws(TypeError(314))
    ensures value.Object? ==> exists i | 0 <= i < |SortedKeys(value.members.Keys)| ::
              RefusedAt(value.members, SortedKeys(value.members.Keys), i, Unflattened(value).error)
  {
    hide SortedKeys, PutEntry, Rebuilt, RefusedAt;
    if value.Object? {
      var m, keys := value.members, SortedKeys(value.members.Keys);
      var i := 0;
      NothingRebuilt(m, keys);
      while Rebuilt(m, keys, i + 1).Ok?
        invariant i < |keys| && Rebuilt(m, keys, i).Ok?
        decreases |keys| - i
      {
        i := i + 1;
      }
      RebuiltStops(m, keys, i + 1, |keys|);
      EntryRefused(m, keys, i);
    }
  }

  /** The first `i` entries can be put, and the next is refused with this error. */
  ghost predicate RefusedAt(m: map<string, Json>, keys: seq<string>, i: nat, e: Exception)
    requires i < |keys| && forall k | k in keys :: k in m
  {
    && Rebuilt(m, keys, i).Ok? && keys[i] in keys
    && if !m[keys[i]].IsPrimitive() then e == TypeError(315)
       else if Parsed(keys[i]).Throws? then e == Parsed(keys[i]).error
       else StopsWith(Rebuilt(m, keys, i).value, Parsed(keys[i]).value, e)
  }

  /** The walk along the path first stops with this error. */
  ghost predicate StopsWith(x: Json, p: Path, e: Exception) {
    exists n | 0 <= n < |p| ::
      At(x, p[..n]).Ok? && !Passable(At(x, p[..n]), p[n]) && e == StopError(At(x, p[..n]).value, p[n])
  }

  lemma EntryRefused(m: map<string, Json>, keys: seq<string>, i: nat)
    requires i < |keys| && (forall k | k in keys :: k in m)
    requires Rebuilt(m, keys, i).Ok? && Rebuilt(m, keys, i + 1).Throws?
    ensures RefusedAt(m, keys, i, Rebuilt(m, keys, i + 1).error)
  {
    hide Parsed, CreateAt, Passable, StopError, At, Rebuilt;
    RebuiltStep(m, keys, i);
    if m[keys[i]].IsPrimitive() && Parsed(keys[i]).Ok? {
      CreateStops(Rebuilt(m, keys, i).value, Parsed(keys[i]).value, m[keys[i]]);
    }
  }
}
