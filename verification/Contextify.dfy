/**
 Copying host data into a sandbox (packages/runtime-core/src/index.ts, contextifyValue). One memo from source objects
 to copies serves all globals; the copy of a node is entered in the memo before its children are copied, which ends
 the recursion on cycles. The copy is a graph isomorphic to the part of the source that the globals reach.
 */
module Contextify {
  import opened Wrappers
  import opened ObjectGraph

  type Memo = map<Id, Id>

  function Image(memo: Memo, v: Value): Value {
    if v.Ref? && v.id in memo then Ref(memo[v.id]) else v
  }

  function ImageItems(memo: Memo, items: seq<Value>): (r: seq<Value>)
    ensures |r| == |items| && forall i :: 0 <= i < |r| ==> r[i] == Image(memo, items[i])
  {
    if items == [] then [] else [Image(memo, items[0])] + ImageItems(memo, items[1..])
  }

  function ImageProps(memo: Memo, props: seq<Property>): (r: seq<Property>)
    ensures |r| == |props| && forall i :: 0 <= i < |r| ==> r[i] == props[i].(value := Image(memo, props[i].value))
  {
    if props == [] then [] else [props[0].(value := Image(memo, props[0].value))] + ImageProps(memo, props[1..])
  }

  /** The node a copy should be: the same keys and attributes in the same order, on an object without prototype. */
  function ImageNode(memo: Memo, o: Object): Object {
    match o
    case Array(items) => Array(ImageItems(memo, items))
    case Record(_, props) => Record(true, ImageProps(memo, props))
  }

  ghost predicate Covered(memo: Memo, o: Object) {
    forall i :: 0 <= i < |Children(o)| ==> (Children(o)[i].Ref? ==> Children(o)[i].id in memo)
  }

  /** The copy of `x` is finished: all its children are copied and it is their image. */
  ghost predicate Finished(source: Heap, target: Heap, memo: Memo, x: Id) {
    x in source && x in memo && memo[x] in target
    && Covered(memo, source[x]) && target[memo[x]] == ImageNode(memo, source[x])
  }

  /** Each memoized object has its own copy, and there are no other copies. */
  ghost predicate OneCopyEach(memo: Memo, target: Heap) {
    && (forall x, y :: x in memo && y in memo && memo[x] == memo[y] ==> x == y)
    && (forall x :: x in memo ==> memo[x] in target)
    && |target| == |memo|
  }

  /** The copied part of the source and the target are isomorphic through the memo. */
  ghost predicate Isomorphic(source: Heap, target: Heap, memo: Memo) {
    OneCopyEach(memo, target) && forall x :: x in memo ==> Finished(source, target, memo, x)
  }

  ghost predicate NoFunctions(heap: Heap) {
    forall x :: x in heap ==> forall i :: 0 <= i < |Children(heap[x])| ==> !IsFunction(Children(heap[x])[i])
  }

  predicate IsFunction(v: Value) {
    v.Leaf? && v.leaf.Function?
  }

  ghost predicate Grows(memo: Memo, memo': Memo) {
    memo.Keys <= memo'.Keys && forall x :: x in memo ==> memo'[x] == memo[x]
  }

  lemma FinishedStays(source: Heap, target: Heap, memo: Memo, target': Heap, memo': Memo, x: Id)
    requires Finished(source, target, memo, x) && Grows(memo, memo')
    requires memo[x] in target' && target'[memo[x]] == target[memo[x]]
    ensures Finished(source, target', memo', x)
  {
    var o := source[x];
    forall v: Value | v.Ref? ==> v.id in memo ensures Image(memo', v) == Image(memo, v) {}
    match o
    case Array(items) =>
      assert forall i :: 0 <= i < |items| ==> Children(o)[i] == items[i];
      assert ImageItems(memo', items) == ImageItems(memo, items);
    case Record(_, props) =>
      assert forall i :: 0 <= i < |props| ==> Children(o)[i] == props[i].value;
      assert ImageProps(memo', props) == ImageProps(memo, props);
  }

  /** What a copy of `v` leaves: older copies untouched, every newer copy finished and reached from `v`. */
  ghost predicate Extended(source: Heap, m0: Memo, t0: Heap, m1: Memo, t1: Heap, v: Value) {
    && Grows(m0, m1)
    && t0.Keys <= t1.Keys && (forall t :: t in t0 ==> t1[t] == t0[t])
    && (forall x :: x in m1 && x !in m0 ==> m1[x] !in t0 && Finished(source, t1, m1, x) && Reaches(source, v, x))
  }

  ghost predicate Consistent(source: Heap, memo: Memo, target: Heap, next: Id) {
    && memo.Keys <= source.Keys
    && OneCopyEach(memo, target)
    && (forall t: Id :: t in target <==> t < next)
  }

  /**
   Halfway through copying node `x` to `t`: the values `done` of its children were copied, and the rest of the state
   is an extension of the one before, `m0` and `t0`.
   */
  ghost predicate Filling(source: Heap, m0: Memo, t0: Heap, m1: Memo, t1: Heap, x: Id, t: Id, done: seq<Value>) {
    && x in m1 && m1[x] == t && t !in t0 && t in t1
    && Grows(m0, m1)
    && t0.Keys <= t1.Keys && (forall u :: u in t0 ==> t1[u] == t0[u])
    && (forall v :: v in done && v.Ref? ==> v.id in m1)
    && (forall y :: y in m1 && y !in m0 && y != x ==>
          m1[y] !in t0 && m1[y] != t && Finished(source, t1, m1, y) && Reaches(source, Ref(x), y))
  }

  lemma NewerStaysFinished(source: Heap, m0: Memo, t0: Heap, m1: Memo, t1: Heap, x: Id, t: Id, done: seq<Value>,
                           v: Value, m2: Memo, t2: Heap, node: Object, y: Id)
    requires Filling(source, m0, t0, m1, t1, x, t, done) && x !in m0
    requires Extended(source, m1, t1, m2, t2, v)
    requires x in source && |done| < |Children(source[x])| && v == Children(source[x])[|done|]
    requires y in m2 && y !in m0 && y != x
    ensures m2[y] !in t0 && m2[y] != t && Finished(source, t2[t := node], m2, y) && Reaches(source, Ref(x), y)
  {
    if y in m1 {
      FinishedStays(source, t1, m1, t2[t := node], m2, y);
    } else {
      FinishedStays(source, t2, m2, t2[t := node], m2, y);
      ChildReaches(source, x, |done|, y);
    }
  }

  /** Copying one more child of `x`, then writing the copy into the node `t`, keeps the node halfway. */
  lemma ChildCopied(source: Heap, m0: Memo, t0: Heap, m1: Memo, t1: Heap, x: Id, t: Id, done: seq<Value>,
                    v: Value, m2: Memo, t2: Heap, node: Object)
    requires Filling(source, m0, t0, m1, t1, x, t, done) && x !in m0
    requires Extended(source, m1, t1, m2, t2, v) && (v.Ref? ==> v.id in m2)
    requires x in source && |done| < |Children(source[x])| && v == Children(source[x])[|done|]
    ensures Filling(source, m0, t0, m2, t2[t := node], x, t, done + [v])
  {
    forall y | y in m2 && y !in m0 && y != x
      ensures m2[y] !in t0 && m2[y] != t && Finished(source, t2[t := node], m2, y) && Reaches(source, Ref(x), y)
    {
      NewerStaysFinished(source, m0, t0, m1, t1, x, t, done, v, m2, t2, node, y);
    }
  }

  lemma ConsistentWrite(source: Heap, memo: Memo, target: Heap, next: Id, t: Id, node: Object)
    requires Consistent(source, memo, target, next) && t in target
    ensures Consistent(source, memo, target[t := node], next)
  {
  }

  lemma ItemImages(m1: Memo, m2: Memo, items: seq<Value>, i: nat)
    requires i < |items| && Grows(m1, m2) && forall v :: v in items[..i] && v.Ref? ==> v.id in m1
    ensures ImageItems(m2, items[..i + 1]) == ImageItems(m1, items[..i]) + [Image(m2, items[i])]
  {
    ImagesStay(m1, m2, items[..i]);
    assert items[..i + 1] == items[..i] + [items[i]];
  }

  /** The half-filled node is untouched by the copy of a child. */
  lemma NodeStays(source: Heap, m0: Memo, t0: Heap, m1: Memo, t1: Heap, x: Id, t: Id, done: seq<Value>,
                  m2: Memo, t2: Heap, v: Value)
    requires Filling(source, m0, t0, m1, t1, x, t, done) && Extended(source, m1, t1, m2, t2, v)
    ensures t in t2 && t2[t] == t1[t] && forall u :: u in done && u.Ref? ==> u.id in m1
  {
  }

  /** The copy of one more item, written into the half-filled node, keeps it halfway. */
  lemma ItemFills(source: Heap, m0: Memo, t0: Heap, m1: Memo, t1: Heap, x: Id, t: Id, i: nat,
                  m2: Memo, t2: Heap, node: Object)
    requires x in source && x !in m0 && source[x].Array? && i < |source[x].items|
    requires Filling(source, m0, t0, m1, t1, x, t, source[x].items[..i])
    requires Extended(source, m1, t1, m2, t2, source[x].items[i])
    requires source[x].items[i].Ref? ==> source[x].items[i].id in m2
    ensures Filling(source, m0, t0, m2, t2[t := node], x, t, source[x].items[..i + 1])
  {
    var items := source[x].items;
    assert Children(source[x])[i] == items[i];
    assert items[..i + 1] == items[..i] + [items[i]];
    ChildCopied(source, m0, t0, m1, t1, x, t, items[..i], items[i], m2, t2, node);
  }

  /** What one turn of the array loop leaves. */
  lemma ItemCopied(source: Heap, m0: Memo, t0: Heap, m1: Memo, t1: Heap, x: Id, t: Id, i: nat,
                   m2: Memo, t2: Heap)
    requires x in source && x !in m0 && source[x].Array? && i < |source[x].items|
    requires Filling(source, m0, t0, m1, t1, x, t, source[x].items[..i])
    requires t1[t] == Array(ImageItems(m1, source[x].items[..i]))
    requires Extended(source, m1, t1, m2, t2, source[x].items[i])
    requires source[x].items[i].Ref? ==> source[x].items[i].id in m2
    ensures t in t2 && t2[t] == t1[t]
    ensures
      var node := Array(t2[t].items + [Image(m2, source[x].items[i])]);
      && Filling(source, m0, t0, m2, t2[t := node], x, t, source[x].items[..i + 1])
      && node == Array(ImageItems(m2, source[x].items[..i + 1]))
  {
    var items := source[x].items;
    NodeStays(source, m0, t0, m1, t1, x, t, items[..i], m2, t2, items[i]);
    ItemImages(m1, m2, items, i);
    ItemFills(source, m0, t0, m1, t1, x, t, i, m2, t2, Array(t2[t].items + [Image(m2, items[i])]));
  }

  /** What one turn of the property loop leaves. */
  lemma PropCopied(source: Heap, m0: Memo, t0: Heap, m1: Memo, t1: Heap, x: Id, t: Id, i: nat,
                   m2: Memo, t2: Heap)
    requires x in source && x !in m0 && source[x].Record? && i < |source[x].props|
    requires Filling(source, m0, t0, m1, t1, x, t, PropValues(source[x].props[..i]))
    requires t1[t] == Record(true, ImageProps(m1, source[x].props[..i]))
    requires Extended(source, m1, t1, m2, t2, source[x].props[i].value)
    requires source[x].props[i].value.Ref? ==> source[x].props[i].value.id in m2
    ensures t in t2 && t2[t] == t1[t]
    ensures
      var prop := source[x].props[i];
      var node := Record(true, t2[t].props + [prop.(value := Image(m2, prop.value))]);
      && Filling(source, m0, t0, m2, t2[t := node], x, t, PropValues(source[x].props[..i + 1]))
      && node == Record(true, ImageProps(m2, source[x].props[..i + 1]))
  {
    var props := source[x].props;
    NodeStays(source, m0, t0, m1, t1, x, t, PropValues(props[..i]), m2, t2, props[i].value);
    PropImages(m1, m2, props, i);
    assert Children(source[x])[i] == props[i].value && |PropValues(props[..i])| == i;
    ChildCopied(source, m0, t0, m1, t1, x, t, PropValues(props[..i]), props[i].value, m2, t2,
      Record(true, t2[t].props + [props[i].(value := Image(m2, props[i].value))]));
  }

  lemma PropImages(m1: Memo, m2: Memo, props: seq<Property>, i: nat)
    requires i < |props| && Grows(m1, m2) && forall v :: v in PropValues(props[..i]) && v.Ref? ==> v.id in m1
    ensures ImageProps(m2, props[..i + 1]) ==
      ImageProps(m1, props[..i]) + [props[i].(value := Image(m2, props[i].value))]
    ensures PropValues(props[..i + 1]) == PropValues(props[..i]) + [props[i].value]
  {
    PropImagesStay(m1, m2, props[..i]);
    ImagePropsSnoc(m2, props, i);
  }

  lemma ImagePropsSnoc(memo: Memo, props: seq<Property>, i: nat)
    requires i < |props|
    ensures ImageProps(memo, props[..i + 1]) ==
      ImageProps(memo, props[..i]) + [props[i].(value := Image(memo, props[i].value))]
  {
    assert props[..i + 1] == props[..i] + [props[i]];
  }

  /** A node all of whose children were copied, and that holds their images, is finished. */
  lemma NodeFinished(source: Heap, m0: Memo, t0: Heap, m1: Memo, t1: Heap, x: Id, t: Id)
    requires x in source && x !in m0 && Filling(source, m0, t0, m1, t1, x, t, Children(source[x]))
    requires t1[t] == ImageNode(m1, source[x])
    ensures Extended(source, m0, t0, m1, t1, Ref(x))
  {
    SelfReaches(source, x);
    forall i | 0 <= i < |Children(source[x])| && Children(source[x])[i].Ref?
      ensures Children(source[x])[i].id in m1
    {
      assert Children(source[x])[i] in Children(source[x]);
    }
  }

  lemma ImagesStay(memo: Memo, memo': Memo, items: seq<Value>)
    requires Grows(memo, memo') && forall v :: v in items && v.Ref? ==> v.id in memo
    ensures ImageItems(memo', items) == ImageItems(memo, items)
  {
    forall i | 0 <= i < |items| ensures Image(memo', items[i]) == Image(memo, items[i]) { assert items[i] in items; }
  }

  lemma PropImagesStay(memo: Memo, memo': Memo, props: seq<Property>)
    requires Grows(memo, memo') && forall v :: v in PropValues(props) && v.Ref? ==> v.id in memo
    ensures ImageProps(memo', props) == ImageProps(memo, props)
  {
    forall i | 0 <= i < |props| ensures Image(memo', props[i].value) == Image(memo, props[i].value) {
      assert PropValues(props)[i] in PropValues(props);
    }
  }

  // ---------------------------------------------------------------- what isomorphism means to the sandbox

  lemma ImageChildren(memo: Memo, o: Object)
    ensures |Children(ImageNode(memo, o))| == |Children(o)|
    ensures forall i :: 0 <= i < |Children(o)| ==> Children(ImageNode(memo, o))[i] == Image(memo, Children(o)[i])
  {
  }

  /**
   The copy of an array is an array of as many items, the copy of an object a plain object with the same keys and
   attributes in the same order; leaves stay as they are, and references lead to copies.
   */
  lemma CopyLooksAlike(source: Heap, target: Heap, memo: Memo, x: Id)
    requires Isomorphic(source, target, memo) && x in memo
    ensures x in source && memo[x] in target
    ensures match (source[x], target[memo[x]])
      case (Array(items), Array(copies)) =>
        |copies| == |items| && forall i :: 0 <= i < |items| ==> CopyOf(memo, items[i], copies[i])
      case (Record(_, props), Record(plain, copies)) =>
        && plain && |copies| == |props|
        && forall i :: 0 <= i < |props| ==>
             && copies[i].key == props[i].key && copies[i].enumerable == props[i].enumerable
             && copies[i].configurable == props[i].configurable && copies[i].writable == props[i].writable
             && CopyOf(memo, props[i].value, copies[i].value)
      case _ => false
  {
    assert Finished(source, target, memo, x);
    match source[x]
    case Array(items) =>
      forall i | 0 <= i < |items| ensures CopyOf(memo, items[i], ImageItems(memo, items)[i]) {
        assert Children(source[x])[i] == items[i];
      }
    case Record(_, props) =>
      forall i | 0 <= i < |props| ensures CopyOf(memo, props[i].value, ImageProps(memo, props)[i].value) {
        assert Children(source[x])[i] == props[i].value;
      }
  }

  /** A leaf itself, or a reference to the copy of what is referred to. */
  predicate CopyOf(memo: Memo, v: Value, copy: Value) {
    match v
    case Leaf(_) => copy == v
    case Ref(x) => x in memo && copy == Ref(memo[x])
  }

  /** Every access path gives in the copy the image of what it gives in the source. */
  lemma {:induction false} WalkImage(source: Heap, target: Heap, memo: Memo, v: Value, path: seq<nat>)
    requires Isomorphic(source, target, memo) && (v.Ref? ==> v.id in memo)
    ensures Walk(target, Image(memo, v), path) ==
      match Walk(source, v, path) case None => None case Some(w) => Some(Image(memo, w))
    ensures match Walk(source, v, path) case None => true case Some(w) => w.Ref? ==> w.id in memo
    decreases |path|
  {
    if path != [] && v.Ref? {
      assert Finished(source, target, memo, v.id);
      ImageChildren(memo, source[v.id]);
      if path[0] < |Children(source[v.id])| {
        WalkImage(source, target, memo, Children(source[v.id])[path[0]], path[1..]);
      }
    }
  }

  /** Two access paths lead to one object in the copy exactly when they do in the source: sharing and cycles stay. */
  lemma AliasingKept(source: Heap, target: Heap, memo: Memo, v: Value, p: seq<nat>, w: Value, q: seq<nat>, x: Id, y: Id)
    requires Isomorphic(source, target, memo) && (v.Ref? ==> v.id in memo) && (w.Ref? ==> w.id in memo)
    requires Walk(source, v, p) == Some(Ref(x)) && Walk(source, w, q) == Some(Ref(y))
    ensures Walk(target, Image(memo, v), p) == Walk(target, Image(memo, w), q) <==> x == y
  {
    WalkImage(source, target, memo, v, p);
    WalkImage(source, target, memo, w, q);
  }

  /** Copying one more global keeps the isomorphism. */
  lemma GlobalCopied(source: Heap, m0: Memo, t0: Heap, m1: Memo, t1: Heap, v: Value)
    requires Isomorphic(source, t0, m0) && Extended(source, m0, t0, m1, t1, v) && OneCopyEach(m1, t1)
    ensures Isomorphic(source, t1, m1)
  {
    forall x | x in m1 ensures Finished(source, t1, m1, x) {
      if x in m0 { FinishedStays(source, t0, m0, t1, m1, x); }
    }
  }

  lemma ReachedIsCopied(source: Heap, target: Heap, memo: Memo, v: Value, x: Id)
    requires Isomorphic(source, target, memo) && (v.Ref? ==> v.id in memo) && Reaches(source, v, x)
    ensures x in memo
  {
    var path :| Walk(source, v, path) == Some(Ref(x));
    WalkImage(source, target, memo, v, path);
  }

  /** Every copied object is reached from one of the first `n` globals. */
  ghost predicate ReachedFrom(source: Heap, memo: Memo, globals: seq<(string, Value)>, n: nat)
    requires n <= |globals|
  {
    forall x :: x in memo ==> exists j :: 0 <= j < n && Reaches(source, globals[j].1, x)
  }

  lemma ReachedFromNext(source: Heap, m0: Memo, t0: Heap, m1: Memo, t1: Heap, globals: seq<(string, Value)>, n: nat)
    requires n < |globals| && ReachedFrom(source, m0, globals, n)
    requires Extended(source, m0, t0, m1, t1, globals[n].1)
    ensures ReachedFrom(source, m1, globals, n + 1)
  {
    forall x | x in m1 ensures exists j :: 0 <= j < n + 1 && Reaches(source, globals[j].1, x) {
      if x in m0 {
        var j :| 0 <= j < n && Reaches(source, globals[j].1, x);
      } else {
        assert Reaches(source, globals[n].1, x);
      }
    }
  }

  /** The first `n` globals are installed in the context. */
  ghost predicate Installed(memo: Memo, globals: seq<(string, Value)>, n: nat, context: map<string, Value>)
    requires n <= |globals|
  {
    forall j :: 0 <= j < n ==>
      && (globals[j].1.Ref? ==> globals[j].1.id in memo)
      && globals[j].0 in context && context[globals[j].0] == Image(memo, globals[j].1)
  }

  lemma InstalledNext(m0: Memo, m1: Memo, globals: seq<(string, Value)>, n: nat, context: map<string, Value>)
    requires n < |globals| && Installed(m0, globals, n, context) && Grows(m0, m1)
    requires forall i, j :: 0 <= i < j < |globals| ==> globals[i].0 != globals[j].0
    requires globals[n].1.Ref? ==> globals[n].1.id in m1
    ensures Installed(m1, globals, n + 1, context[globals[n].0 := Image(m1, globals[n].1)])
  {
  }

  lemma AllInstalled(source: Heap, target: Heap, memo: Memo, globals: seq<(string, Value)>, context: map<string, Value>)
    requires Isomorphic(source, target, memo) && Installed(memo, globals, |globals|, context)
    requires ReachedFrom(source, memo, globals, |globals|)
    ensures forall i :: 0 <= i < |globals| ==>
      globals[i].0 in context && context[globals[i].0] == Image(memo, globals[i].1)
    ensures forall x :: x in memo <==> exists i :: 0 <= i < |globals| && Reaches(source, globals[i].1, x)
  {
    forall x, i | 0 <= i < |globals| && Reaches(source, globals[i].1, x) ensures x in memo {
      ReachedIsCopied(source, target, memo, globals[i].1, x);
    }
  }

  class Sandbox {
    const source: Heap
    var memo: Memo
    var target: Heap
    var next: Id

    ghost predicate Valid()
      reads this
    {
      Closed(source) && NoFunctions(source) && Consistent(source, memo, target, next)
    }

    constructor (source: Heap)
      requires Closed(source) && NoFunctions(source)
      ensures Valid() && this.source == source && memo == map[] && target == map[]
    {
      this.source := source;
      memo, target, next := map[], map[], 0;
    }

    method ContextifyValue(v: Value) returns (w: Value)
      requires Valid() && Live(source, v) && !IsFunction(v)
      modifies this
      ensures Valid() && Extended(source, old(memo), old(target), memo, target, v)
      ensures w == Image(memo, v) && (v.Ref? ==> v.id in memo)
      decreases source.Keys - memo.Keys, 1
    {
      match v {
        case Leaf(_) => return v;
        case Ref(x) =>
          if x in memo { return Ref(memo[x]); }
          match source[x] {
            case Array(_) => w := CopyArray(x);
            case Record(_, _) => w := CopyRecord(x);
          }
      }
    }

    method CopyArray(x: Id) returns (w: Value)
      requires Valid() && x in source && x !in memo && source[x].Array?
      modifies this
      ensures Valid() && Extended(source, old(memo), old(target), memo, target, Ref(x))
      ensures x in memo && w == Ref(memo[x])
      decreases source.Keys - memo.Keys, 0
    {
      ghost var m0, t0 := memo, target;
      var items, t := source[x].items, next;
      Allocate(x, Array([]));
      for i := 0 to |items|
        invariant Valid() && Filling(source, m0, t0, memo, target, x, t, items[..i])
        invariant target[t] == Array(ImageItems(memo, items[..i]))
      {
        CopyItem(x, t, i, m0, t0);
      }
      assert items[..|items|] == items == Children(source[x]);
      NodeFinished(source, m0, t0, memo, target, x, t);
      return Ref(t);
    }

    /** One turn of the array loop. `m0` and `t0` are the state before the copy of `x` began. */
    method CopyItem(x: Id, t: Id, i: nat, ghost m0: Memo, ghost t0: Heap)
      requires Valid() && x in source && x !in m0 && source[x].Array? && i < |source[x].items|
      requires Filling(source, m0, t0, memo, target, x, t, source[x].items[..i])
      requires target[t] == Array(ImageItems(memo, source[x].items[..i]))
      modifies this
      ensures Valid() && Filling(source, m0, t0, memo, target, x, t, source[x].items[..i + 1])
      ensures target[t] == Array(ImageItems(memo, source[x].items[..i + 1]))
      decreases source.Keys - memo.Keys, 2
    {
      var items := source[x].items;
      ghost var m1, t1 := memo, target;
      assert Children(source[x])[i] == items[i];
      var copy := ContextifyValue(items[i]);
      ItemCopied(source, m0, t0, m1, t1, x, t, i, memo, target);
      ConsistentWrite(source, memo, target, next, t, Array(target[t].items + [copy]));
      target := target[t := Array(target[t].items + [copy])];
    }

    method CopyRecord(x: Id) returns (w: Value)
      requires Valid() && x in source && x !in memo && source[x].Record?
      modifies this
      ensures Valid() && Extended(source, old(memo), old(target), memo, target, Ref(x))
      ensures x in memo && w == Ref(memo[x])
      decreases source.Keys - memo.Keys, 0
    {
      ghost var m0, t0 := memo, target;
      var props, t := source[x].props, next;
      Allocate(x, Record(true, []));
      for i := 0 to |props|
        invariant Valid() && Filling(source, m0, t0, memo, target, x, t, PropValues(props[..i]))
        invariant target[t] == Record(true, ImageProps(memo, props[..i]))
      {
        CopyProp(x, t, i, m0, t0);
      }
      assert props[..|props|] == props;
      NodeFinished(source, m0, t0, memo, target, x, t);
      return Ref(t);
    }

    /** One turn of the property loop. */
    method CopyProp(x: Id, t: Id, i: nat, ghost m0: Memo, ghost t0: Heap)
      requires Valid() && x in source && x !in m0 && source[x].Record? && i < |source[x].props|
      requires Filling(source, m0, t0, memo, target, x, t, PropValues(source[x].props[..i]))
      requires target[t] == Record(true, ImageProps(memo, source[x].props[..i]))
      modifies this
      ensures Valid() && Filling(source, m0, t0, memo, target, x, t, PropValues(source[x].props[..i + 1]))
      ensures target[t] == Record(true, ImageProps(memo, source[x].props[..i + 1]))
      decreases source.Keys - memo.Keys, 2
    {
      var props := source[x].props;
      ghost var m1, t1 := memo, target;
      assert Children(source[x])[i] == props[i].value && |PropValues(props[..i])| == i;
      var copy := ContextifyValue(props[i].value);
      PropCopied(source, m0, t0, m1, t1, x, t, i, memo, target);
      AppendProp(t, props[i].(value := copy));
    }

    /** Define one more property on the copy at `t`. */
    method AppendProp(t: Id, prop: Property)
      requires Valid() && t in target && target[t].Record? && target[t].plain
      modifies this`target
      ensures Valid() && target == old(target)[t := Record(true, old(target)[t].props + [prop])]
    {
      var node := Record(true, target[t].props + [prop]);
      ConsistentWrite(source, memo, target, next, t, node);
      target := target[t := node];
    }

    /** installContextifiedGlobals on a fresh memo: all globals are copied with it. */
    method InstallGlobals(globals: seq<(string, Value)>) returns (context: map<string, Value>)
      requires Valid() && memo == map[] && target == map[]
      requires forall i :: 0 <= i < |globals| ==> Live(source, globals[i].1) && !IsFunction(globals[i].1)
      requires forall i, j :: 0 <= i < j < |globals| ==> globals[i].0 != globals[j].0
      modifies this
      ensures Isomorphic(source, target, memo)
      ensures forall i :: 0 <= i < |globals| ==>
        globals[i].0 in context && context[globals[i].0] == Image(memo, globals[i].1)
      ensures forall x :: x in memo <==> exists i :: 0 <= i < |globals| && Reaches(source, globals[i].1, x)
    {
      context := map[];
      for i := 0 to |globals|
        invariant Valid() && Isomorphic(source, target, memo)
        invariant Installed(memo, globals, i, context) && ReachedFrom(source, memo, globals, i)
      {
        context := InstallGlobal(globals, i, context);
      }
      AllInstalled(source, target, memo, globals, context);
    }

    /** One turn of the loop over the globals. */
    method InstallGlobal(globals: seq<(string, Value)>, i: nat, context: map<string, Value>)
      returns (installed: map<string, Value>)
      requires Valid() && i < |globals| && Live(source, globals[i].1) && !IsFunction(globals[i].1)
      requires forall i, j :: 0 <= i < j < |globals| ==> globals[i].0 != globals[j].0
      requires Isomorphic(source, target, memo) && Installed(memo, globals, i, context)
      requires ReachedFrom(source, memo, globals, i)
      modifies this
      ensures Valid() && Isomorphic(source, target, memo)
      ensures Installed(memo, globals, i + 1, installed) && ReachedFrom(source, memo, globals, i + 1)
    {
      ghost var m0, t0 := memo, target;
      var (key, value) := globals[i];
      var copy := ContextifyValue(value);
      GlobalCopied(source, m0, t0, memo, target, value);
      ReachedFromNext(source, m0, t0, memo, target, globals, i);
      InstalledNext(m0, memo, globals, i, context);
      installed := context[key := copy];
    }

    /** Create the empty copy of `x` and enter it in the memo. */
    method Allocate(x: Id, node: Object)
      requires Valid() && x in source && x !in memo
      modifies this
      ensures Valid() && memo == old(memo)[x := old(next)] && target == old(target)[old(next) := node]
      ensures Filling(source, old(memo), old(target), memo, target, x, old(next), [])
      ensures next == old(next) + 1
    {
      memo := memo[x := next];
      target := target[next := node];
      next := next + 1;
    }
  }
}
