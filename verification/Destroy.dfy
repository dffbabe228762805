/**
 `json_value::destroy`: children are moved to a heap-allocated stack, so that tearing
 down a deep value does not recurse.
 */
module Destroy {
  import opened JsonValue
  import opened JsonPointer
  import opened TextOrder

  /** The direct children in the order in which they are moved to the stack. */
  function Children(j: Json): (c: seq<Json>)
    ensures forall i | 0 <= i < |c| :: c[i] < j
  {
    match j
    case Array(a) => a
    case Object(m) => Values(j, SortedKeys(m.Keys))
    case _ => []
  }

  function Values(j: Json, keys: seq<string>): (c: seq<Json>)
    requires j.Object? && forall k | k in keys :: k in j.members
    ensures |c| == |keys| && forall i | 0 <= i < |c| :: c[i] == j.members[keys[i]]
    ensures forall i | 0 <= i < |c| :: c[i] < j
  {
    if keys == [] then [] else
      assert keys[0] in keys && forall k | k in keys[1..] :: k in keys;
      [j.members[keys[0]]] + Values(j, keys[1..])
  }

  /** A value together with everything inside it, with multiplicity. */
  function Everything(j: Json): multiset<Json>
    decreases j, 1, 0
  {
    multiset{j} + AllOf(Children(j), j)
  }

  /** Everything in a list of values that all lie inside `bound`. */
  function AllOf(s: seq<Json>, ghost bound: Json): multiset<Json>
    requires forall i | 0 <= i < |s| :: s[i] < bound
    decreases bound, 0, |s|
  {
    if s == [] then multiset{} else AllOf(s[..|s| - 1], bound) + Everything(s[|s| - 1])
  }

  /** Everything in the values on the stack. */
  function OnStack(s: seq<Json>): multiset<Json> {
    if s == [] then multiset{} else OnStack(s[..|s| - 1]) + Everything(s[|s| - 1])
  }

  lemma {:induction false} StackOfChildren(s: seq<Json>, bound: Json)
    requires forall i | 0 <= i < |s| :: s[i] < bound
    ensures AllOf(s, bound) == OnStack(s)
    decreases |s|
  {
    if s != [] {
      StackOfChildren(s[..|s| - 1], bound);
    }
  }

  lemma NoneOnStack()
    ensures OnStack([]) == multiset{}
  {
  }

  lemma OneMoreOnStack(s: seq<Json>, top: Json)
    ensures OnStack(s + [top]) == OnStack(s) + Everything(top)
  {
    hide Everything;
    assert (s + [top])[..|s|] == s;
  }

  lemma {:induction false} OnStackConcat(a: seq<Json>, b: seq<Json>)
    ensures OnStack(a + b) == OnStack(a) + OnStack(b)
    decreases |b|
  {
    hide OnStack;
    if b == [] {
      assert a + b == a;
      NoneOnStack();
    } else {
      var b', top := b[..|b| - 1], b[|b| - 1];
      assert a + b == a + b' + [top] && b == b' + [top];
      OnStackConcat(a, b');
      OneMoreOnStack(a + b', top);
      OneMoreOnStack(b', top);
    }
  }

  /** The item with its children taken out: what is destructed at the end of a turn. */
  function Emptied(j: Json): Json {
    match j
    case Array(_) => Array([])
    case Object(_) => Object(map[])
    case _ => j
  }

  /** Every item is let go after its children have been taken out. */
  predicate LetGo(taken: seq<Json>, dropped: seq<Json>) {
    && |dropped| == |taken|
    && forall i | 0 <= i < |taken| :: dropped[i] == Emptied(taken[i]) && Children(dropped[i]) == []
  }

  /** The stack loop. `taken` lists the items in the order in which they leave the stack,
      `dropped` what is left of each when it is let go: every proper descendant leaves the
      stack exactly once, and what is let go has no children.  The loop ends after as
      many turns as there are descendants. */
  method Teardown(j: Json) returns (taken: seq<Json>, dropped: seq<Json>)
    ensures multiset(taken) + multiset{j} == Everything(j)
    ensures LetGo(taken, dropped)
  {
    hide Everything, Children, OnStack, Emptied, LetGo;
    taken, dropped := [], [];
    NothingLetGo();
    var stack := Children(j);
    Initially(j);
    while stack != []
      invariant multiset(taken) + OnStack(stack) + multiset{j} == Everything(j)
      invariant LetGo(taken, dropped)
      decreases |OnStack(stack)|
    {
      var current := stack[|stack| - 1];
      Pop(stack);
      ghost var before := OnStack(stack);
      stack := stack[..|stack| - 1] + Children(current);
      OneTaken(taken, current, before, OnStack(stack), multiset{j});
      OneLetGo(taken, dropped, current);
      taken := taken + [current];
      dropped := dropped + [Emptied(current)];
    }
    EmptyStack();
  }

  lemma OneTaken(taken: seq<Json>, current: Json, before: multiset<Json>, now: multiset<Json>, root: multiset<Json>)
    requires before == now + multiset{current}
    ensures multiset(taken + [current]) + now + root == multiset(taken) + before + root && |now| < |before|
  {
  }

  lemma Initially(j: Json)
    ensures OnStack(Children(j)) + multiset{j} == Everything(j)
  {
    StackOfChildren(Children(j), j);
  }

  lemma EmptyStack()
    ensures OnStack([]) == multiset{}
  {
  }

  /** Taking the last item off and pushing its children removes just that item. */
  lemma {:induction false} Pop(stack: seq<Json>)
    requires stack != []
    ensures var current := stack[|stack| - 1];
            OnStack(stack) == OnStack(stack[..|stack| - 1] + Children(current)) + multiset{current}
  {
    var current := stack[|stack| - 1];
    StackOfChildren(Children(current), current);
    OnStackConcat(stack[..|stack| - 1], Children(current));
  }

  lemma NothingLetGo()
    ensures LetGo([], [])
  {
  }

  lemma OneLetGo(taken: seq<Json>, dropped: seq<Json>, current: Json)
    requires LetGo(taken, dropped)
    ensures LetGo(taken + [current], dropped + [Emptied(current)])
  {
    hide Children, Emptied;
    EmptiedHasNoChildren(current);
  }

  lemma EmptiedHasNoChildren(j: Json)
    ensures Children(Emptied(j)) == []
  {
  }

  // ----- what is inside a value ---------------------------------------------------------

  /** Everything that a path leads to, other than the value itself, is taken off the stack. */
  lemma {:induction false} ReachedIsTaken(j: Json, p: seq<string>)
    requires At(j, p).Ok?
    ensures At(j, p).value in Everything(j)
    ensures p != [] ==> At(j, p).value in Everything(j) - multiset{j}
    decreases |p|
  {
    hide Everything, Children, Child;
    EverythingIs(j);
    if p != [] {
      var c := Child(j, p[0]).value;
      ReachedIsTaken(c, p[1..]);
      ChildIsMoved(j, p[0]);
      InsideStack(Children(j), c, At(j, p).value);
    }
  }

  lemma EverythingIs(j: Json)
    ensures Everything(j) == multiset{j} + OnStack(Children(j))
  {
    StackOfChildren(Children(j), j);
  }

  /** Every child is moved to the stack: an element at its index, a member at the place of its key. */
  lemma ChildIsMoved(j: Json, t: string)
    requires Child(j, t).Ok?
    ensures Child(j, t).value in Children(j)
    ensures |Children(j)| == if j.Array? then |j.items| else |j.members|
  {
    hide ArrayIndex, SortedKeys;
    if j.Object? {
      var keys := SortedKeys(j.members.Keys);
      var i :| 0 <= i < |keys| && keys[i] == t;
      assert Children(j)[i] == j.members[t];
    }
  }

  lemma {:induction false} InsideStack(s: seq<Json>, c: Json, x: Json)
    requires c in s && x in Everything(c)
    ensures x in OnStack(s)
    decreases |s|
  {
    hide Everything;
    var top := s[|s| - 1];
    if c != top { InsideStack(s[..|s| - 1], c, x); }
  }
}
