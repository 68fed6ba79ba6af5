/**
 Data objects of the JavaScript heap, as a finite map from identities to nodes. A value is a leaf or a reference;
 a node is a dense array or an object with its own properties in order. Cycles and sharing are ordinary.
 */
module ObjectGraph {
  import opened Wrappers

  type Id = nat

  datatype Leaf =
    | Undefined | Null
    | Boolean(b: bool) | FiniteNumber(n: real) | NonFiniteNumber | Text(s: string)
    | BigInt(i: int) | Symbol(description: string) | Function(f: nat)

  datatype Value = Leaf(leaf: Leaf) | Ref(id: Id)

  datatype Property = Property(key: string, enumerable: bool, configurable: bool, writable: bool, value: Value)

  /** `plain` says that the prototype is `Object.prototype` or null. */
  datatype Object = Array(items: seq<Value>) | Record(plain: bool, props: seq<Property>)

  type Heap = map<Id, Object>

  function PropValues(props: seq<Property>): (r: seq<Value>)
    ensures |r| == |props| && forall i :: 0 <= i < |r| ==> r[i] == props[i].value
  {
    if props == [] then [] else [props[0].value] + PropValues(props[1..])
  }

  function Children(o: Object): seq<Value> {
    match o
    case Array(items) => items
    case Record(_, props) => PropValues(props)
  }

  predicate Live(heap: Heap, v: Value) {
    v.Ref? ==> v.id in heap
  }

  /** Every reference in the heap leads to a node of the heap. */
  predicate Closed(heap: Heap) {
    forall x :: x in heap ==> forall i :: 0 <= i < |Children(heap[x])| ==> Live(heap, Children(heap[x])[i])
  }

  /** The value found by following child positions from `v`. */
  function Walk(heap: Heap, v: Value, path: seq<nat>): Option<Value>
    decreases |path|
  {
    if path == [] then Some(v)
    else if v.Leaf? || v.id !in heap then None
    else
      var children := Children(heap[v.id]);
      if path[0] < |children| then Walk(heap, children[path[0]], path[1..]) else None
  }

  ghost predicate Reaches(heap: Heap, v: Value, x: Id) {
    exists path :: Walk(heap, v, path) == Some(Ref(x))
  }

  lemma {:induction false} WalkAppend(heap: Heap, v: Value, p: seq<nat>, q: seq<nat>)
    ensures Walk(heap, v, p + q) == match Walk(heap, v, p) case None => None case Some(w) => Walk(heap, w, q)
    decreases |p|
  {
    if p == [] {
      assert p + q == q;
    } else {
      assert (p + q)[0] == p[0] && (p + q)[1..] == p[1..] + q;
      if v.Ref? && v.id in heap && p[0] < |Children(heap[v.id])| {
        WalkAppend(heap, Children(heap[v.id])[p[0]], p[1..], q);
      }
    }
  }

  lemma ChildReaches(heap: Heap, x: Id, i: nat, y: Id)
    requires x in heap && i < |Children(heap[x])| && Reaches(heap, Children(heap[x])[i], y)
    ensures Reaches(heap, Ref(x), y)
  {
    var path :| Walk(heap, Children(heap[x])[i], path) == Some(Ref(y));
    assert ([i] + path)[1..] == path;
    assert Walk(heap, Ref(x), [i] + path) == Some(Ref(y));
  }

  lemma SelfReaches(heap: Heap, x: Id)
    ensures Reaches(heap, Ref(x), x)
  {
    assert Walk(heap, Ref(x), []) == Some(Ref(x));
  }
}
