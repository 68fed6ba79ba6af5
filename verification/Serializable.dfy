/**
 assertSerializable (packages/sdk/src/action.ts): a depth-first walk whose `seen` set holds the objects on the current
 path. It accepts exactly the values from which only finite numbers, strings, booleans, null and undefined, plain
 objects and arrays are reached, without a cycle. Objects are as in ObjectGraph; only enumerable own properties count.
 */
module Serializable {
  import opened Wrappers
  import opened ObjectGraph

  predicate LeafAllowed(leaf: Leaf) {
    leaf.Undefined? || leaf.Null? || leaf.Text? || leaf.Boolean? || leaf.FiniteNumber?
  }

  predicate ShapeAllowed(o: Object) {
    o.Array? || o.plain
  }

  /** The values `Object.entries` or the index loop visits. */
  function Entries(o: Object): seq<Value> {
    match o
    case Array(items) => items
    case Record(_, props) => EnumerableValues(props)
  }

  function EnumerableValues(props: seq<Property>): seq<Value> {
    if props == [] then []
    else (if props[0].enumerable then [props[0].value] else []) + EnumerableValues(props[1..])
  }

  /** Every value that is visited from a node of the heap is a leaf or a node of the heap. */
  predicate Sealed(heap: Heap) {
    forall x :: x in heap ==> forall i :: 0 <= i < |Entries(heap[x])| ==> Live(heap, Entries(heap[x])[i])
  }

  // ---------------------------------------------------------------- the walk as a function

  /** Whether the walk of `v` below the objects `seen` ends without throwing. */
  predicate Accepts(heap: Heap, v: Value, seen: set<Id>)
    requires Sealed(heap) && Live(heap, v)
    decreases heap.Keys - seen, 1, 0
  {
    match v
    case Leaf(leaf) => LeafAllowed(leaf)
    case Ref(x) =>
      x !in seen && ShapeAllowed(heap[x]) && AcceptsAll(heap, Entries(heap[x]), seen + {x})
  }

  predicate AcceptsAll(heap: Heap, values: seq<Value>, seen: set<Id>)
    requires Sealed(heap) && forall i :: 0 <= i < |values| ==> Live(heap, values[i])
    decreases heap.Keys - seen, 2, |values|
  {
    values == [] || (Accepts(heap, values[0], seen) && AcceptsAll(heap, values[1..], seen))
  }

  lemma {:induction false} AcceptsAllIs(heap: Heap, values: seq<Value>, seen: set<Id>)
    requires Sealed(heap) && forall i :: 0 <= i < |values| ==> Live(heap, values[i])
    ensures AcceptsAll(heap, values, seen) <==> forall i :: 0 <= i < |values| ==> Accepts(heap, values[i], seen)
    decreases |values|
  {
    if values == [] {
    } else {
      AcceptsAllIs(heap, values[1..], seen);
      if AcceptsAll(heap, values, seen) {
        forall i | 0 <= i < |values| ensures Accepts(heap, values[i], seen) {
          if i > 0 { assert values[i] == values[1..][i - 1]; }
        }
      }
    }
  }

  // ---------------------------------------------------------------- what it decides

  /** The value found by following visited positions from `v`. */
  function Visit(heap: Heap, v: Value, path: seq<nat>): Option<Value>
    decreases |path|
  {
    if path == [] then Some(v)
    else if v.Leaf? || v.id !in heap then None
    else
      var entries := Entries(heap[v.id]);
      if path[0] < |entries| then Visit(heap, entries[path[0]], path[1..]) else None
  }

  predicate ValueAllowed(heap: Heap, v: Value) {
    match v
    case Leaf(leaf) => LeafAllowed(leaf)
    case Ref(x) => x in heap && ShapeAllowed(heap[x])
  }

  /** Everything visited from `v` is allowed. */
  ghost predicate OnlyAllowed(heap: Heap, v: Value) {
    forall path, w :: Visit(heap, v, path) == Some(w) ==> ValueAllowed(heap, w)
  }

  /** Some object visited from `v` is visited again from itself. */
  ghost predicate CycleFrom(heap: Heap, v: Value) {
    exists path, loop, x :: OnCycle(heap, v, path, loop, x)
  }

  ghost predicate OnCycle(heap: Heap, v: Value, path: seq<nat>, loop: seq<nat>, x: Id) {
    loop != [] && Visit(heap, v, path) == Some(Ref(x)) && Visit(heap, Ref(x), loop) == Some(Ref(x))
  }

  /** Some object of `seen` is visited from `v`. */
  ghost predicate Meets(heap: Heap, v: Value, seen: set<Id>) {
    exists path, x :: x in seen && Visit(heap, v, path) == Some(Ref(x))
  }

  lemma VisitStep(heap: Heap, x: Id, i: nat, path: seq<nat>)
    requires x in heap && i < |Entries(heap[x])|
    ensures Visit(heap, Ref(x), [i] + path) == Visit(heap, Entries(heap[x])[i], path)
  {
    assert ([i] + path)[0] == i && ([i] + path)[1..] == path;
  }

  lemma {:induction false} VisitAppend(heap: Heap, v: Value, p: seq<nat>, q: seq<nat>)
    ensures Visit(heap, v, p + q) == match Visit(heap, v, p) case None => None case Some(w) => Visit(heap, w, q)
    decreases |p|
  {
    if p == [] {
      assert p + q == q;
    } else {
      assert (p + q)[0] == p[0] && (p + q)[1..] == p[1..] + q;
      if v.Ref? && v.id in heap && p[0] < |Entries(heap[v.id])| {
        VisitAppend(heap, Entries(heap[v.id])[p[0]], p[1..], q);
      }
    }
  }

  ghost predicate Acceptable(heap: Heap, v: Value, seen: set<Id>) {
    OnlyAllowed(heap, v) && !CycleFrom(heap, v) && !Meets(heap, v, seen)
  }

  /** The walk ends, and accepts exactly what is acceptable below the objects on its path. */
  lemma {:induction false} AcceptsIff(heap: Heap, v: Value, seen: set<Id>)
    requires Sealed(heap) && Live(heap, v)
    ensures Accepts(heap, v, seen) <==> Acceptable(heap, v, seen)
    decreases heap.Keys - seen
  {
    match v
    case Leaf(leaf) => LeafAcceptable(heap, leaf, seen);
    case Ref(x) =>
      assert Visit(heap, v, []) == Some(v);
      if x !in seen {
        var entries := Entries(heap[x]);
        AcceptsAllIs(heap, entries, seen + {x});
        forall i | 0 <= i < |entries|
          ensures Accepts(heap, entries[i], seen + {x}) <==> Acceptable(heap, entries[i], seen + {x})
        {
          AcceptsIff(heap, entries[i], seen + {x});
        }
        RefAcceptable(heap, x, seen);
      }
  }

  lemma LeafAcceptable(heap: Heap, leaf: Leaf, seen: set<Id>)
    ensures Acceptable(heap, Leaf(leaf), seen) <==> LeafAllowed(leaf)
  {
    assert Visit(heap, Leaf(leaf), []) == Some(Leaf(leaf));
  }

  /** An object is acceptable when its shape is and its entries are, with the object itself on the path. */
  lemma RefAcceptable(heap: Heap, x: Id, seen: set<Id>)
    requires x in heap && x !in seen
    ensures Acceptable(heap, Ref(x), seen) <==>
      && ShapeAllowed(heap[x])
      && forall i :: 0 <= i < |Entries(heap[x])| ==> Acceptable(heap, Entries(heap[x])[i], seen + {x})
  {
    var entries := Entries(heap[x]);
    assert Visit(heap, Ref(x), []) == Some(Ref(x));
    if Acceptable(heap, Ref(x), seen) {
      assert ValueAllowed(heap, Ref(x));
      forall i | 0 <= i < |entries| ensures Acceptable(heap, entries[i], seen + {x}) {
        EntryAcceptable(heap, x, seen, i);
      }
    }
    if ShapeAllowed(heap[x]) && forall i :: 0 <= i < |entries| ==> Acceptable(heap, entries[i], seen + {x}) {
      WholeAcceptable(heap, x, seen);
    }
  }

  lemma EntryAcceptable(heap: Heap, x: Id, seen: set<Id>, i: nat)
    requires x in heap && Acceptable(heap, Ref(x), seen) && i < |Entries(heap[x])|
    ensures Acceptable(heap, Entries(heap[x])[i], seen + {x})
  {
    var v := Entries(heap[x])[i];
    forall path, w | Visit(heap, v, path) == Some(w) ensures ValueAllowed(heap, w) {
      VisitStep(heap, x, i, path);
    }
    if path, loop, y :| OnCycle(heap, v, path, loop, y) {
      VisitStep(heap, x, i, path);
      assert OnCycle(heap, Ref(x), [i] + path, loop, y);
    }
    if path, y :| y in seen + {x} && Visit(heap, v, path) == Some(Ref(y)) {
      VisitStep(heap, x, i, path);
      if y == x { assert OnCycle(heap, Ref(x), [], [i] + path, x); }
    }
  }

  lemma WholeAcceptable(heap: Heap, x: Id, seen: set<Id>)
    requires x in heap && x !in seen && ShapeAllowed(heap[x])
    requires forall i :: 0 <= i < |Entries(heap[x])| ==> Acceptable(heap, Entries(heap[x])[i], seen + {x})
    ensures Acceptable(heap, Ref(x), seen)
  {
    forall path, w | Visit(heap, Ref(x), path) == Some(w) && path != []
      ensures ValueAllowed(heap, w) && (w.Ref? ==> w.id !in seen && w.id != x)
    {
      var v := Entries(heap[x])[path[0]];
      assert Visit(heap, v, path[1..]) == Some(w);
      assert Acceptable(heap, v, seen + {x});
    }
    if path, loop, y :| OnCycle(heap, Ref(x), path, loop, y) {
      if path == [] {
        assert y == x;
      } else {
        assert OnCycle(heap, Entries(heap[x])[path[0]], path[1..], loop, y);
      }
    }
  }

  lemma AcceptsUnseenIff(heap: Heap, v: Value)
    requires Sealed(heap) && Live(heap, v)
    ensures Accepts(heap, v, {}) <==> OnlyAllowed(heap, v) && !CycleFrom(heap, v)
  {
    AcceptsIff(heap, v, {});
  }

  // ---------------------------------------------------------------- the same in terms of the data

  /** `w` is an item of the array `v`, or the value of an enumerable property of the object `v`. */
  ghost predicate Holds(heap: Heap, v: Value, w: Value) {
    && v.Ref? && v.id in heap
    && match heap[v.id]
       case Array(items) => exists i :: 0 <= i < |items| && items[i] == w
       case Record(_, props) => exists i :: 0 <= i < |props| && props[i].enumerable && props[i].value == w
  }

  /** Each value of the trail, which starts at `v`, holds the next one. */
  ghost predicate Trail(heap: Heap, v: Value, trail: seq<Value>) {
    trail != [] && trail[0] == v && forall i :: 0 <= i < |trail| - 1 ==> Holds(heap, trail[i], trail[i + 1])
  }

  function End(trail: seq<Value>): Value
    requires trail != []
  {
    trail[|trail| - 1]
  }

  /** Functions, symbols, bigints, numbers that are not finite, and objects that are neither arrays nor plain. */
  predicate Forbidden(heap: Heap, v: Value) {
    match v
    case Leaf(leaf) => leaf.NonFiniteNumber? || leaf.BigInt? || leaf.Symbol? || leaf.Function?
    case Ref(x) => x in heap && heap[x].Record? && !heap[x].plain
  }

  /** The trail comes to one object twice. */
  ghost predicate ComesBack(heap: Heap, v: Value, trail: seq<Value>, i: nat, j: nat) {
    Trail(heap, v, trail) && i < j < |trail| && trail[i].Ref? && trail[i] == trail[j]
  }

  /** No trail from `v` ends at something forbidden, and none comes to an object twice. */
  ghost predicate Fit(heap: Heap, v: Value) {
    && (forall trail :: Trail(heap, v, trail) ==> !Forbidden(heap, End(trail)))
    && (forall trail, i, j :: !ComesBack(heap, v, trail, i, j))
  }

  lemma {:induction false} EnumerableExactly(props: seq<Property>, w: Value)
    ensures w in EnumerableValues(props) <==>
      exists i :: 0 <= i < |props| && props[i].enumerable && props[i].value == w
  {
    if props == [] {
    } else {
      EnumerableExactly(props[1..], w);
      if i :| 0 <= i < |props| && props[i].enumerable && props[i].value == w {
        if i > 0 { assert props[1..][i - 1] == props[i]; }
      }
      if i :| 0 <= i < |props[1..]| && props[1..][i].enumerable && props[1..][i].value == w {
        assert props[i + 1] == props[1..][i];
      }
    }
  }

  /** The walk enters exactly what is held. */
  lemma EntersExactly(heap: Heap, x: Id, w: Value)
    requires x in heap
    ensures Holds(heap, Ref(x), w) <==> w in Entries(heap[x])
  {
    if heap[x].Record? { EnumerableExactly(heap[x].props, w); }
  }

  /** Every visit leaves a trail. */
  lemma {:induction false} TrailOfVisit(heap: Heap, v: Value, path: seq<nat>) returns (trail: seq<Value>)
    requires Visit(heap, v, path).Some?
    ensures Trail(heap, v, trail) && |trail| == |path| + 1 && Some(End(trail)) == Visit(heap, v, path)
    decreases |path|
  {
    if path == [] {
      trail := [v];
    } else {
      var w := Entries(heap[v.id])[path[0]];
      EntersExactly(heap, v.id, w);
      var rest := TrailOfVisit(heap, w, path[1..]);
      trail := [v] + rest;
      assert forall i :: 1 <= i < |trail| ==> trail[i] == rest[i - 1];
    }
  }

  /** Every trail can be visited. */
  lemma {:induction false} VisitOfTrail(heap: Heap, v: Value, trail: seq<Value>) returns (path: seq<nat>)
    requires Trail(heap, v, trail)
    ensures |path| == |trail| - 1 && Visit(heap, v, path) == Some(End(trail))
    decreases |trail|
  {
    if |trail| == 1 {
      path := [];
    } else {
      assert Holds(heap, trail[0], trail[1]);
      EntersExactly(heap, v.id, trail[1]);
      var i: nat :| i < |Entries(heap[v.id])| && Entries(heap[v.id])[i] == trail[1];
      var rest := VisitOfTrail(heap, trail[1], trail[1..]);
      VisitStep(heap, v.id, i, rest);
      path := [i] + rest;
    }
  }

  lemma {:induction false} VisitStaysLive(heap: Heap, v: Value, path: seq<nat>)
    requires Sealed(heap) && Live(heap, v) && Visit(heap, v, path).Some?
    ensures Live(heap, Visit(heap, v, path).value)
    decreases |path|
  {
    if path != [] { VisitStaysLive(heap, Entries(heap[v.id])[path[0]], path[1..]); }
  }

  lemma TrailPart(heap: Heap, v: Value, trail: seq<Value>, i: nat, j: nat)
    requires Trail(heap, v, trail) && i <= j < |trail|
    ensures Trail(heap, trail[i], trail[i..j + 1]) && End(trail[i..j + 1]) == trail[j]
  {
  }

  lemma TrailJoin(heap: Heap, v: Value, a: seq<Value>, b: seq<Value>)
    requires Trail(heap, v, a) && Trail(heap, End(a), b)
    ensures Trail(heap, v, a + b[1..]) && (a + b[1..])[|a| - 1] == End(a) && End(a + b[1..]) == End(b)
  {
    var c := a + b[1..];
    forall i | 0 <= i < |c| - 1 ensures Holds(heap, c[i], c[i + 1]) {
      if i >= |a| - 1 { assert c[i] == b[i - |a| + 1] && c[i + 1] == b[i - |a| + 2]; }
    }
  }

  lemma AllowedIff(heap: Heap, v: Value)
    requires Sealed(heap) && Live(heap, v)
    ensures OnlyAllowed(heap, v) <==> forall trail :: Trail(heap, v, trail) ==> !Forbidden(heap, End(trail))
  {
    forall trail | OnlyAllowed(heap, v) && Trail(heap, v, trail) ensures !Forbidden(heap, End(trail)) {
      var path := VisitOfTrail(heap, v, trail);
    }
    if forall trail :: Trail(heap, v, trail) ==> !Forbidden(heap, End(trail)) {
      forall path, w | Visit(heap, v, path) == Some(w) ensures ValueAllowed(heap, w) {
        var trail := TrailOfVisit(heap, v, path);
        VisitStaysLive(heap, v, path);
      }
    }
  }

  lemma CycleIff(heap: Heap, v: Value)
    ensures CycleFrom(heap, v) <==> exists trail, i, j :: ComesBack(heap, v, trail, i, j)
  {
    if path, loop, x :| OnCycle(heap, v, path, loop, x) {
      var a := TrailOfVisit(heap, v, path);
      var b := TrailOfVisit(heap, Ref(x), loop);
      TrailJoin(heap, v, a, b);
      assert ComesBack(heap, v, a + b[1..], |a| - 1, |a + b[1..]| - 1);
    }
    if trail: seq<Value>, i: nat, j: nat :| ComesBack(heap, v, trail, i, j) {
      TrailPart(heap, v, trail, 0, i);
      TrailPart(heap, v, trail, i, j);
      var path := VisitOfTrail(heap, v, trail[0..i + 1]);
      var loop := VisitOfTrail(heap, trail[i], trail[i..j + 1]);
      assert OnCycle(heap, v, path, loop, trail[i].id);
    }
  }

  /**
   assertSerializable accepts exactly the values from which no function, symbol, bigint, number that is not finite or
   object with a prototype of its own is reached, and no object comes back; sharing is allowed.
   */
  lemma SerializableIff(heap: Heap, v: Value)
    requires Sealed(heap) && Live(heap, v)
    ensures Accepts(heap, v, {}) <==> Fit(heap, v)
  {
    AcceptsUnseenIff(heap, v);
    AllowedIff(heap, v);
    CycleIff(heap, v);
  }

  // ---------------------------------------------------------------- the walk as it runs

  class Checker {
    const heap: Heap
    var seen: set<Id>

    constructor (heap: Heap)
      ensures this.heap == heap && seen == {}
    {
      this.heap := heap;
      seen := {};
    }

    /** False stands for the thrown error, which ends the whole walk; on success `seen` is as before. */
    method AssertSerializableInternal(v: Value) returns (ok: bool)
      requires Sealed(heap) && Live(heap, v)
      modifies this
      ensures ok <==> Accepts(heap, v, old(seen))
      ensures ok ==> seen == old(seen)
      decreases heap.Keys - seen
    {
      match v {
        case Leaf(leaf) => return LeafAllowed(leaf);
        case Ref(x) =>
          if x in seen { return false; }
          ghost var path := seen;
          seen := seen + {x};
          if !ShapeAllowed(heap[x]) { return false; }
          var entries := Entries(heap[x]);
          AcceptsAllIs(heap, entries, seen);
          for i := 0 to |entries|
            invariant seen == path + {x}
            invariant forall j :: 0 <= j < i ==> Accepts(heap, entries[j], path + {x})
          {
            var accepted := AssertSerializableInternal(entries[i]);
            if !accepted { return false; }
          }
          seen := seen - {x};
          return true;
      }
    }

    method AssertSerializable(v: Value) returns (ok: bool)
      requires Sealed(heap) && Live(heap, v)
      modifies this
      ensures ok <==> Fit(heap, v)
    {
      seen := {};
      ok := AssertSerializableInternal(v);
      SerializableIff(heap, v);
    }
  }
}
