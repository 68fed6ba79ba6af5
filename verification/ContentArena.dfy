/**
 The working tree of buildTreeFromChanges as it is in memory: directory objects that hold Maps and refer to each other,
 edited in place along a path. `heap[i]` is the Map of directory object `i`, the root is object 0, and a directory is
 allocated before the ones it refers to.
 */
module ContentArena {
  import opened Wrappers
  import opened ContentTree

  datatype Slot = FileSlot(blob: BlobId) | DirSlot(ref: nat)

  datatype Item = Item(name: string, slot: Slot)

  type Heap = seq<seq<Item>>

  predicate Forward(heap: Heap) {
    forall i, k :: 0 <= i < |heap| && 0 <= k < |heap[i]| && heap[i][k].slot.DirSlot? ==>
      i < heap[i][k].slot.ref < |heap|
  }

  predicate IsDir(heap: Heap, i: nat, k: nat, ref: nat) {
    i < |heap| && k < |heap[i]| && heap[i][k].slot == DirSlot(ref)
  }

  /** No two places refer to one directory object. */
  ghost predicate Unshared(heap: Heap) {
    forall ref, i, k, j, l :: IsDir(heap, i, k, ref) && IsDir(heap, j, l, ref) ==> i == j && k == l
  }

  ghost predicate Tidy(heap: Heap) {
    Forward(heap) && Unshared(heap)
  }

  /** The entries of directory `owner` from the `k`-th on, where the directory `target` is taken to hold `x`. */
  function Plug(heap: Heap, owner: nat, k: nat, target: int, x: Children): Children
    requires Forward(heap) && owner < |heap| && k <= |heap[owner]|
    decreases |heap| - owner, |heap[owner]| - k
  {
    if k == |heap[owner]| then Nil
    else Cons(heap[owner][k].name, PlugNode(heap, owner, k, target, x), Plug(heap, owner, k + 1, target, x))
  }

  function PlugNode(heap: Heap, owner: nat, k: nat, target: int, x: Children): Node
    requires Forward(heap) && owner < |heap| && k < |heap[owner]|
    decreases |heap| - owner, |heap[owner]| - k, 0
  {
    match heap[owner][k].slot
    case FileSlot(blob) => FileNode(blob)
    case DirSlot(ref) => DirNode(if ref == target then x else Plug(heap, ref, 0, target, x))
  }

  /** The directory object as a value. */
  function Tree(heap: Heap, owner: nat): Children
    requires Forward(heap) && owner < |heap|
  {
    Plug(heap, owner, 0, -1, Nil)
  }

  /** The root, where the directory `target` is taken to hold `x`. */
  function PlugRoot(heap: Heap, target: nat, x: Children): Children
    requires Forward(heap) && heap != []
  {
    if target == 0 then x else Plug(heap, 0, 0, target, x)
  }

  // ---------------------------------------------------------------- Map operations on one directory

  /** The place of a name in a Map; its size when the name is not there. */
  function Place(items: seq<Item>, name: string): (j: nat)
    ensures j <= |items|
    ensures j < |items| ==> items[j].name == name
    ensures forall k :: 0 <= k < j ==> items[k].name != name
  {
    if items == [] || items[0].name == name then 0 else 1 + Place(items[1..], name)
  }

  function PutItem(items: seq<Item>, name: string, slot: Slot): seq<Item> {
    var j := Place(items, name);
    if j < |items| then items[j := Item(name, slot)] else items + [Item(name, slot)]
  }

  function DropItem(items: seq<Item>, name: string): seq<Item> {
    var j := Place(items, name);
    if j < |items| then items[..j] + items[j + 1..] else items
  }

  lemma PlaceAfterPut(items: seq<Item>, name: string, slot: Slot)
    ensures Place(PutItem(items, name, slot), name) == Place(items, name)
    ensures PutItem(items, name, slot)[Place(items, name)] == Item(name, slot)
  {
    var j, put := Place(items, name), PutItem(items, name, slot);
    var i := Place(put, name);
    assert put[j].name == name;
    assert forall k :: 0 <= k < j ==> put[k] == items[k];
  }

  lemma {:induction false} GetFromPlace(heap: Heap, owner: nat, k: nat, name: string)
    requires Forward(heap) && owner < |heap| && k <= Place(heap[owner], name)
    ensures
      var j := Place(heap[owner], name);
      Get(Plug(heap, owner, k, -1, Nil), name) ==
      if j < |heap[owner]| then Some(PlugNode(heap, owner, j, -1, Nil)) else None
    decreases |heap[owner]| - k
  {
    if k < Place(heap[owner], name) { GetFromPlace(heap, owner, k + 1, name); }
  }

  // ---------------------------------------------------------------- heaps that differ in one directory

  /** `t` may differ from `s` in directory `current`, and may have more directories. */
  ghost predicate SameBut(s: Heap, t: Heap, current: nat) {
    && Forward(s) && Forward(t) && current < |s| <= |t|
    && forall o :: 0 <= o < |s| && o != current ==> t[o] == s[o]
  }

  /** Only place `j` of directory `current` may refer to `target`. */
  ghost predicate OnlyAt(t: Heap, current: nat, j: nat, target: int) {
    forall o, k :: 0 <= o < |t| && 0 <= k < |t[o]| && t[o][k].slot.DirSlot? && t[o][k].slot.ref == target ==>
      o == current && k == j
  }

  /** Directories allocated later do not see the change, nor the target. */
  lemma {:induction false} BelowSame(s: Heap, t: Heap, current: nat, j: nat, target: int, x: Children, o: nat, k: nat)
    requires SameBut(s, t, current) && OnlyAt(t, current, j, target)
    requires current < o < |s| && k <= |s[o]|
    ensures Plug(t, o, k, target, x) == Plug(s, o, k, -1, Nil)
    decreases |s| - o, |s[o]| - k
  {
    if k < |s[o]| {
      BelowSame(s, t, current, j, target, x, o, k + 1);
      if s[o][k].slot.DirSlot? { BelowSame(s, t, current, j, target, x, s[o][k].slot.ref, 0); }
    }
  }

  /** So the entries of the changed directory itself are as before, where its items are. */
  lemma ItemSame(
    s: Heap, t: Heap, current: nat, j: nat, target: int, x: Children, k: nat, l: nat)
    requires SameBut(s, t, current) && OnlyAt(t, current, j, target)
    requires k < |s[current]| && l < |t[current]| && l != j && t[current][l] == s[current][k]
    ensures PlugNode(t, current, l, target, x) == PlugNode(s, current, k, -1, Nil)
  {
    if s[current][k].slot.DirSlot? { BelowSame(s, t, current, j, target, x, s[current][k].slot.ref, 0); }
  }

  /** The directory with one item put. */
  ghost predicate PutAt(s: Heap, t: Heap, current: nat, name: string, slot: Slot, target: int) {
    && SameBut(s, t, current) && t[current] == PutItem(s[current], name, slot)
    && OnlyAt(t, current, Place(s[current], name), target)
  }

  lemma {:induction false} PutPlugs(
    s: Heap, t: Heap, current: nat, name: string, slot: Slot, target: int, x: Children, k: nat)
    requires PutAt(s, t, current, name, slot, target) && k <= |s[current]|
    ensures
      var j := Place(s[current], name);
      Plug(t, current, k, target, x) ==
      if k <= j then Put(Plug(s, current, k, -1, Nil), name, PlugNode(t, current, j, target, x))
      else Plug(s, current, k, -1, Nil)
    decreases |s[current]| - k
  {
    var j := Place(s[current], name);
    if k < |s[current]| {
      PutPlugs(s, t, current, name, slot, target, x, k + 1);
      if k != j { ItemSame(s, t, current, j, target, x, k, k); }
    } else if k == j {
      assert Plug(t, current, k + 1, target, x) == Nil;
    }
  }

  lemma {:induction false} DropPlugs(s: Heap, t: Heap, current: nat, name: string, k: nat)
    requires SameBut(s, t, current) && t[current] == DropItem(s[current], name) && k <= |t[current]|
    ensures
      var j := Place(s[current], name);
      Plug(t, current, k, -1, Nil) ==
      if k < j || j == |s[current]| then Drop(Plug(s, current, k, -1, Nil), name)
      else Plug(s, current, k + 1, -1, Nil)
    decreases |t[current]| - k
  {
    var j := Place(s[current], name);
    if k < |t[current]| {
      DropPlugs(s, t, current, name, k + 1);
      ItemSame(s, t, current, |t[current]|, -1, Nil, if k < j then k else k + 1, k);
    }
  }

  /** Changing one directory object is replacing what stands in its place. */
  lemma {:induction false} ChangeShows(s: Heap, t: Heap, current: nat, o: nat, k: nat)
    requires SameBut(s, t, current) && o < |s| && o != current && k <= |s[o]|
    ensures Plug(t, o, k, -1, Nil) == Plug(s, o, k, current, Tree(t, current))
    decreases |s| - o, |s[o]| - k
  {
    if k < |s[o]| {
      ChangeShows(s, t, current, o, k + 1);
      if s[o][k].slot.DirSlot? && s[o][k].slot.ref != current {
        ChangeShows(s, t, current, s[o][k].slot.ref, 0);
      }
    }
  }

  lemma RootShows(s: Heap, t: Heap, current: nat)
    requires SameBut(s, t, current)
    ensures Tree(t, 0) == PlugRoot(s, current, Tree(t, current))
  {
    if current != 0 { ChangeShows(s, t, current, 0, 0); }
  }

  /** Going down one level: replacing the directory is putting the replaced subdirectory into it. */
  lemma {:induction false} DescendPlugs(
    s: Heap, t: Heap, current: nat, name: string, child: nat, x: Children, o: nat, k: nat)
    requires PutAt(s, t, current, name, DirSlot(child), child)
    requires o < |s| && o != current && k <= |s[o]|
    ensures
      Plug(t, o, k, child, x) ==
      Plug(s, o, k, current, Put(Tree(s, current), name, DirNode(x)))
    decreases |s| - o, |s[o]| - k
  {
    if k < |s[o]| {
      DescendPlugs(s, t, current, name, child, x, o, k + 1);
      if s[o][k].slot.DirSlot? {
        assert t[o][k].slot.ref != child;
        if s[o][k].slot.ref == current {
          PutPlugs(s, t, current, name, DirSlot(child), child, x, 0);
        } else {
          DescendPlugs(s, t, current, name, child, x, s[o][k].slot.ref, 0);
        }
      }
    }
  }

  lemma RootDescends(s: Heap, t: Heap, current: nat, name: string, child: nat, x: Children)
    requires PutAt(s, t, current, name, DirSlot(child), child) && child != 0
    ensures PlugRoot(t, child, x) == PlugRoot(s, current, Put(Tree(s, current), name, DirNode(x)))
  {
    if current == 0 {
      PutPlugs(s, t, current, name, DirSlot(child), child, x, 0);
    } else {
      DescendPlugs(s, t, current, name, child, x, 0, 0);
    }
  }

  // ---------------------------------------------------------------- one level of the descent

  /** The directory object under a name, if there is one. */
  function Child(heap: Heap, current: nat, name: string): Option<nat>
    requires current < |heap|
  {
    var j := Place(heap[current], name);
    if j < |heap[current]| && heap[current][j].slot.DirSlot? then Some(heap[current][j].slot.ref) else None
  }

  /** The heap in which the directory under the name exists. */
  function WithChild(heap: Heap, current: nat, name: string): Heap
    requires current < |heap|
  {
    if Child(heap, current, name).Some? then heap
    else heap[current := PutItem(heap[current], name, DirSlot(|heap|))] + [[]]
  }

  lemma ChildTidy(s: Heap, current: nat, name: string)
    requires Tidy(s) && current < |s|
    ensures
      var t: Heap := WithChild(s, current, name);
      var child := Child(t, current, name);
      && Tidy(t) && child.Some? && 0 < child.value < |t|
      && PutAt(s, t, current, name, DirSlot(child.value), child.value)
      && Tree(t, child.value) == Subdir(Tree(s, current), name)
  {
    var j := Place(s[current], name);
    GetFromPlace(s, current, 0, name);
    if Child(s, current, name).Some? {
      var child := Child(s, current, name).value;
      assert PutItem(s[current], name, DirSlot(child)) == s[current];
      OnlyPlace(s, current, j, child);
    } else {
      FreshChildTidy(s, current, name);
      PlaceAfterPut(s[current], name, DirSlot(|s|));
    }
  }

  lemma OnlyPlace(s: Heap, current: nat, j: nat, child: nat)
    requires Unshared(s) && IsDir(s, current, j, child)
    ensures OnlyAt(s, current, j, child)
  {
    forall o: nat, k: nat | o < |s| && k < |s[o]| && s[o][k].slot == DirSlot(child) ensures o == current && k == j {
      assert IsDir(s, o, k, child);
    }
  }

  lemma FreshChildTidy(s: Heap, current: nat, name: string)
    requires Tidy(s) && current < |s| && Child(s, current, name).None?
    ensures
      var t := WithChild(s, current, name);
      && Tidy(t) && OnlyAt(t, current, Place(s[current], name), |s|)
  {
    forall r, i, k, j, l | IsDir(s + [[]], i, k, r) && IsDir(s + [[]], j, l, r) ensures i == j && k == l {
      assert IsDir(s, i, k, r) && IsDir(s, j, l, r);
    }
    PutDirTidy(s + [[]], current, name, |s|);
    assert WithChild(s, current, name) == (s + [[]])[current := PutItem(s[current], name, DirSlot(|s|))];
  }

  /** No place refers to the directory. */
  ghost predicate Unreferenced(heap: Heap, ref: nat) {
    forall o, k :: 0 <= o < |heap| && 0 <= k < |heap[o]| ==> heap[o][k].slot != DirSlot(ref)
  }

  lemma PutUnshared(s: Heap, current: nat, name: string, slot: Slot)
    requires Unshared(s) && current < |s| && (slot.DirSlot? ==> Unreferenced(s, slot.ref))
    ensures Unshared(s[current := PutItem(s[current], name, slot)])
  {
    var t := s[current := PutItem(s[current], name, slot)];
    forall ref, i, k, j, l | IsDir(t, i, k, ref) && IsDir(t, j, l, ref) ensures i == j && k == l {
      PutWas(s, current, name, slot, i, k, ref);
      PutWas(s, current, name, slot, j, l, ref);
    }
  }

  /** After a put, a directory is where it was, or is the one put. */
  lemma PutWas(s: Heap, current: nat, name: string, slot: Slot, i: nat, k: nat, ref: nat)
    requires current < |s| && IsDir(s[current := PutItem(s[current], name, slot)], i, k, ref)
    ensures IsDir(s, i, k, ref) || (i == current && k == Place(s[current], name) && slot == DirSlot(ref))
    ensures slot.DirSlot? && Unreferenced(s, slot.ref) && slot.ref == ref ==> !IsDir(s, i, k, ref)
  {
  }

  /** Putting a directory that nothing refers to. */
  lemma PutDirTidy(s: Heap, current: nat, name: string, child: nat)
    requires Tidy(s) && current < child < |s| && Unreferenced(s, child)
    ensures
      var t := s[current := PutItem(s[current], name, DirSlot(child))];
      Tidy(t) && OnlyAt(t, current, Place(s[current], name), child)
  {
    var t: Heap := s[current := PutItem(s[current], name, DirSlot(child))];
    var j := Place(s[current], name);
    PutUnshared(s, current, name, DirSlot(child));
    forall o: nat, k: nat | o < |t| && k < |t[o]| && t[o][k].slot.DirSlot? && !(o == current && k == j)
      ensures k < |s[o]| && t[o][k] == s[o][k]
    {
    }
  }

  /** More directories do not change those there are. */
  lemma {:induction false} PrefixSame(s: Heap, t: Heap, o: nat, k: nat)
    requires Forward(s) && Forward(t) && |s| <= |t| && forall i :: 0 <= i < |s| ==> t[i] == s[i]
    requires o < |s| && k <= |s[o]|
    ensures Plug(t, o, k, -1, Nil) == Plug(s, o, k, -1, Nil)
    decreases |s| - o, |s[o]| - k
  {
    if k < |s[o]| {
      PrefixSame(s, t, o, k + 1);
      if s[o][k].slot.DirSlot? { PrefixSame(s, t, s[o][k].slot.ref, 0); }
    }
  }

  lemma PutFileTidy(s: Heap, current: nat, name: string, blob: BlobId)
    requires Tidy(s) && current < |s|
    ensures Tidy(s[current := PutItem(s[current], name, FileSlot(blob))])
  {
    PutUnshared(s, current, name, FileSlot(blob));
  }

  lemma DropTidy(s: Heap, current: nat, name: string)
    requires Tidy(s) && current < |s|
    ensures Tidy(s[current := DropItem(s[current], name)])
  {
    var t: Heap := s[current := DropItem(s[current], name)];
    var j := Place(s[current], name);
    forall k: nat | k < |t[current]| ensures t[current][k] == s[current][if k < j then k else k + 1] {
    }
    forall ref, i, k, i', l | IsDir(t, i, k, ref) && IsDir(t, i', l, ref) ensures i == i' && k == l {
      assert IsDir(s, i, if i == current && k >= j then k + 1 else k, ref);
      assert IsDir(s, i', if i' == current && l >= j then l + 1 else l, ref);
    }
  }

  // ---------------------------------------------------------------- the edits

  /** One turn of the descent of an update. */
  lemma SetDescends(s: Heap, current: nat, parts: Path, blob: BlobId)
    requires Tidy(s) && current < |s| && |parts| > 1
    ensures
      var t := WithChild(s, current, parts[0]);
      var child := Child(t, current, parts[0]);
      && Tidy(t) && child.Some? && child.value < |t|
      && PlugRoot(t, child.value, SetFile(Tree(t, child.value), parts[1..], blob)) ==
         PlugRoot(s, current, SetFile(Tree(s, current), parts, blob))
  {
    ChildTidy(s, current, parts[0]);
    var t := WithChild(s, current, parts[0]);
    var child := Child(t, current, parts[0]).value;
    RootDescends(s, t, current, parts[0], child, SetFile(Tree(t, child), parts[1..], blob));
  }

  lemma SetEnds(s: Heap, current: nat, name: string, blob: BlobId)
    requires Tidy(s) && current < |s|
    ensures
      var t := s[current := PutItem(s[current], name, FileSlot(blob))];
      Tidy(t) && Tree(t, 0) == PlugRoot(s, current, SetFile(Tree(s, current), [name], blob))
  {
    var t := s[current := PutItem(s[current], name, FileSlot(blob))];
    PutFileTidy(s, current, name, blob);
    PutPlugs(s, t, current, name, FileSlot(blob), -1, Nil, 0);
    PlaceAfterPut(s[current], name, FileSlot(blob));
    RootShows(s, t, current);
  }

  /** One turn of the descent of a deletion. */
  lemma DeleteDescends(s: Heap, current: nat, parts: Path)
    requires Tidy(s) && current < |s| && |parts| > 1 && Child(s, current, parts[0]).Some?
    ensures
      var child := Child(s, current, parts[0]).value;
      && child < |s|
      && PlugRoot(s, child, DeleteEntry(Tree(s, child), parts[1..])) ==
         PlugRoot(s, current, DeleteEntry(Tree(s, current), parts))
  {
    ChildTidy(s, current, parts[0]);
    GetFromPlace(s, current, 0, parts[0]);
    var child := Child(s, current, parts[0]).value;
    RootDescends(s, s, current, parts[0], child, DeleteEntry(Tree(s, child), parts[1..]));
  }

  /** The descent of a deletion ends at the last name, or where there is no directory to go on. */
  lemma DeleteEnds(s: Heap, current: nat, parts: Path)
    requires Tidy(s) && current < |s| && parts != [] && (|parts| == 1 || Child(s, current, parts[0]).None?)
    ensures
      var t := s[current := DropItem(s[current], parts[|parts| - 1])];
      Tidy(t) && Tree(t, 0) == PlugRoot(s, current, DeleteEntry(Tree(s, current), parts))
  {
    GetFromPlace(s, current, 0, parts[0]);
    assert DeleteEntry(Tree(s, current), parts) == Drop(Tree(s, current), parts[|parts| - 1]);
    DropShows(s, current, parts[|parts| - 1]);
  }

  lemma DropShows(s: Heap, current: nat, name: string)
    requires Tidy(s) && current < |s|
    ensures
      var t := s[current := DropItem(s[current], name)];
      Tidy(t) && Tree(t, 0) == PlugRoot(s, current, Drop(Tree(s, current), name))
  {
    var t := s[current := DropItem(s[current], name)];
    DropTidy(s, current, name);
    DropPlugs(s, t, current, name, 0);
    RootShows(s, t, current);
  }

  /** The working tree: the directory objects that the edits reach from the root. */
  class WorkingTree {
    var heap: Heap

    ghost predicate Valid()
      reads this
    {
      heap != [] && Tidy(heap)
    }

    /** The tree as a value. */
    ghost function Value(): Children
      requires Valid()
      reads this
    {
      Tree(heap, 0)
    }

    constructor ()
      ensures heap == []
    {
      heap := [];
    }

    method NewDirectory() returns (ref: nat)
      requires Tidy(heap)
      modifies this
      ensures Tidy(heap) && ref == |old(heap)| && heap == old(heap) + [[]]
      ensures Unreferenced(heap, ref) && Tree(heap, ref) == Nil
    {
      ref := |heap|;
      ghost var before := heap;
      heap := heap + [[]];
      forall r, i, k, j, l | IsDir(heap, i, k, r) && IsDir(heap, j, l, r) ensures i == j && k == l {
        assert IsDir(before, i, k, r) && IsDir(before, j, l, r);
      }
    }

    method PutFile(current: nat, name: string, blob: BlobId)
      requires Tidy(heap) && current < |heap|
      modifies this
      ensures Tidy(heap) && heap == old(heap)[current := PutItem(old(heap)[current], name, FileSlot(blob))]
      ensures Tree(heap, current) == Put(old(Tree(heap, current)), name, FileNode(blob))
    {
      PutFileTidy(heap, current, name, blob);
      ghost var before := heap;
      heap := heap[current := PutItem(heap[current], name, FileSlot(blob))];
      PutPlugs(before, heap, current, name, FileSlot(blob), -1, Nil, 0);
      PlaceAfterPut(before[current], name, FileSlot(blob));
    }

    /** The directory put is one that nothing refers to yet. */
    method PutDirectory(current: nat, name: string, child: nat)
      requires Tidy(heap) && current < child < |heap| && Unreferenced(heap, child)
      modifies this
      ensures Tidy(heap) && heap == old(heap)[current := PutItem(old(heap)[current], name, DirSlot(child))]
      ensures Tree(heap, current) == Put(old(Tree(heap, current)), name, DirNode(old(Tree(heap, child))))
    {
      PutDirTidy(heap, current, name, child);
      ghost var before := heap;
      heap := heap[current := PutItem(heap[current], name, DirSlot(child))];
      PutPlugs(before, heap, current, name, DirSlot(child), -1, Nil, 0);
      PlaceAfterPut(before[current], name, DirSlot(child));
      BelowSame(before, heap, current, Place(before[current], name), -1, Nil, child, 0);
    }

    /** Create or update the file at `parts`, with its parent directories. */
    method SetFileAt(parts: Path, blob: BlobId)
      requires Valid() && parts != []
      modifies this
      ensures Valid() && Value() == SetFile(old(Value()), parts, blob)
    {
      var current: nat := 0;
      ghost var goal := SetFile(Value(), parts, blob);
      for i := 0 to |parts| - 1
        invariant Valid() && current < |heap|
        invariant
          goal == PlugRoot(heap, current, SetFile(Tree(heap, current), parts[i..], blob))
      {
        var dirName := parts[i];
        SetDescends(heap, current, parts[i..], blob);
        assert parts[i..][1..] == parts[i + 1..];
        var child := Child(heap, current, dirName);
        if child.None? {
          ChildTidy(heap, current, dirName);
          PlaceAfterPut(heap[current], dirName, DirSlot(|heap|));
          child := Some(|heap|);
          heap := heap[current := PutItem(heap[current], dirName, DirSlot(|heap|))] + [[]];
        }
        current := child.value;
      }
      var name := parts[|parts| - 1];
      SetEnds(heap, current, name, blob);
      assert parts[|parts| - 1..] == [name];
      heap := heap[current := PutItem(heap[current], name, FileSlot(blob))];
    }

    /** The descent of a deletion, which stops at the first name that is no directory, after `i` names. */
    method Descend(parts: Path) returns (current: nat, i: nat)
      requires Valid() && parts != []
      ensures current < |heap| && i < |parts| && (i == |parts| - 1 || Child(heap, current, parts[i]).None?)
      ensures DeleteEntry(Value(), parts) == PlugRoot(heap, current, DeleteEntry(Tree(heap, current), parts[i..]))
    {
      current, i := 0, 0;
      while i < |parts| - 1
        invariant i < |parts| && current < |heap|
        invariant DeleteEntry(Value(), parts) == PlugRoot(heap, current, DeleteEntry(Tree(heap, current), parts[i..]))
      {
        var child := Child(heap, current, parts[i]);
        if child.None? {
          break;
        }
        DeleteDescends(heap, current, parts[i..]);
        assert parts[i..][1..] == parts[i + 1..];
        current := child.value;
        i := i + 1;
      }
    }

    /** Delete at `parts`: the last name is deleted where the descent stopped. */
    method DeleteAt(parts: Path)
      requires Valid() && parts != []
      modifies this
      ensures Valid() && Value() == DeleteEntry(old(Value()), parts)
    {
      var current, i := Descend(parts);
      DeleteEnds(heap, current, parts[i..]);
      var name := parts[|parts| - 1];
      assert parts[i..][|parts[i..]| - 1] == name;
      heap := heap[current := DropItem(heap[current], name)];
    }
  }
}
