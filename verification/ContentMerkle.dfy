/**
 Merkle trees: what a tree id stands for, loading a tree into its nested form and saving it back. In every reachable
 store an id stands for one nested content and a content has one id.
 */
module ContentMerkle {
  import opened Wrappers
  import opened TreePrint
  import opened Sorting
  import opened ContentTree
  import opened ContentStore

  // ---------------------------------------------------------------- what an id stands for

  datatype Contents = Text(content: string) | Folder(entries: map<string, Contents>)

  function EntryNamed(entries: seq<Entry>, name: string): Option<Entry> {
    if entries == [] then None
    else if entries[0].name == name then Some(entries[0])
    else EntryNamed(entries[1..], name)
  }

  lemma {:induction false} EntryNamedIs(entries: seq<Entry>, name: string)
    ensures match EntryNamed(entries, name)
      case Some(e) => e in entries && e.name == name
      case None => forall e :: e in entries ==> e.name != name
  {
    if entries == [] {
    } else {
      EntryNamedIs(entries[1..], name);
      assert entries == [entries[0]] + entries[1..];
    }
  }

  lemma EntryIsNamed(entries: seq<Entry>, e: Entry)
    requires DistinctNames(entries) && e in entries
    ensures EntryNamed(entries, e.name) == Some(e)
  {
    EntryNamedIs(entries, e.name);
  }

  /** Every stored entry refers to an existing blob or to an earlier tree. */
  ghost predicate Sound(s: Store) {
    forall i :: 0 <= i < |s.trees| ==> Storable(s.trees[i].entries, |s.blobs|, i)
  }

  ghost function EntryContents(s: Store, e: Entry): Contents
    requires Sound(s) && (if e.FileEntry? then e.blobId < |s.blobs| else e.treeId < |s.trees|)
    decreases if e.FileEntry? then 0 else e.treeId + 1, 0
  {
    if e.FileEntry? then Text(s.blobs[e.blobId].content) else Folder(TreeContents(s, e.treeId))
  }

  /** The nested contents of a tree: a map from names, so that the order of entries does not matter. */
  ghost function TreeContents(s: Store, id: nat): map<string, Contents>
    requires Sound(s) && id < |s.trees|
    decreases id, 1
  {
    var entries := s.trees[id].entries;
    map n | n in (set e | e in entries :: e.name) && (EntryNamedIs(entries, n); EntryNamed(entries, n).Some?) ::
      EntryContents(s, (EntryNamedIs(entries, n); EntryNamed(entries, n).value))
  }

  lemma ContentsOfEntry(s: Store, id: nat, e: Entry)
    requires Sound(s) && id < |s.trees| && e in s.trees[id].entries
    ensures e.name in TreeContents(s, id) && TreeContents(s, id)[e.name] == EntryContents(s, e)
  {
    EntryIsNamed(s.trees[id].entries, e);
  }

  lemma EntryOfContents(s: Store, id: nat, name: string) returns (e: Entry)
    requires Sound(s) && id < |s.trees| && name in TreeContents(s, id)
    ensures e in s.trees[id].entries && e.name == name
  {
    EntryNamedIs(s.trees[id].entries, name);
    e := EntryNamed(s.trees[id].entries, name).value;
  }

  /** In every tree the order of names tells the entries apart. */
  ghost predicate TreesTold(s: Store, le: NameOrder) {
    forall i :: 0 <= i < |s.trees| ==> NamesTold(s.trees[i].entries, le)
  }

  /** Two entries with the same name and contents are the same entry. */
  lemma {:induction false} SameContentsSameEntry(s: Store, e: Entry, f: Entry, le: NameOrder)
    requires Valid(s, le) && TotalPreorder(le) && TreesTold(s, le) && e.name == f.name
    requires if e.FileEntry? then e.blobId < |s.blobs| else e.treeId < |s.trees|
    requires if f.FileEntry? then f.blobId < |s.blobs| else f.treeId < |s.trees|
    requires EntryContents(s, e) == EntryContents(s, f)
    ensures e == f
    decreases if e.FileEntry? then 0 else e.treeId + 1, 0
  {
    if e.FileEntry? {
      assert s.blobs[e.blobId].hash == s.blobs[f.blobId].hash;
    } else {
      SameContentsSameId(s, e.treeId, f.treeId, le);
    }
  }

  /** In every valid store whose names are told apart, two tree ids are equal exactly when their nested contents are. */
  lemma {:induction false} SameContentsSameId(s: Store, i: nat, j: nat, le: NameOrder)
    requires Valid(s, le) && TotalPreorder(le) && TreesTold(s, le) && i < |s.trees| && j < |s.trees|
    ensures TreeContents(s, i) == TreeContents(s, j) <==> i == j
    decreases i, 1
  {
    if TreeContents(s, i) == TreeContents(s, j) {
      var a, b := s.trees[i].entries, s.trees[j].entries;
      forall e | e in a ensures e in b {
        ContentsOfEntry(s, i, e);
        var f := EntryOfContents(s, j, e.name);
        ContentsOfEntry(s, j, f);
        SameContentsSameEntry(s, e, f, le);
      }
      forall f | f in b ensures f in a {
        ContentsOfEntry(s, j, f);
        var e := EntryOfContents(s, i, f.name);
        EntryIsNamed(b, e);
        EntryIsNamed(b, f);
      }
      SortedListsAgree(a, b, le);
      assert s.trees[i].hash == s.trees[j].hash;
    }
  }

  /** Trees with the same entries, in whatever order, have the same contents. */
  lemma SameEntriesSameContents(s: Store, i: nat, j: nat)
    requires Sound(s) && i < |s.trees| && j < |s.trees|
    requires forall e :: e in s.trees[i].entries <==> e in s.trees[j].entries
    ensures TreeContents(s, i) == TreeContents(s, j)
  {
    forall n | n in TreeContents(s, i) || n in TreeContents(s, j)
      ensures n in TreeContents(s, i) && n in TreeContents(s, j) && TreeContents(s, i)[n] == TreeContents(s, j)[n]
    {
      var e := EntryOfContents(s, if n in TreeContents(s, i) then i else j, n);
      ContentsOfEntry(s, i, e);
      ContentsOfEntry(s, j, e);
    }
    assert TreeContents(s, i).Keys == TreeContents(s, j).Keys;
  }

  // ---------------------------------------------------------------- loading

  /** loadTree: it ends because the trees an entry refers to were inserted before. A missing tree loads as empty. */
  function LoadTree(s: Store, id: nat): Children
    requires Sound(s)
    decreases id, if id < |s.trees| then |s.trees[id].entries| + 1 else 0
  {
    if id >= |s.trees| then Nil else LoadEntries(s, s.trees[id].entries, id)
  }

  function LoadEntries(s: Store, entries: seq<Entry>, bound: nat): Children
    requires Sound(s) && forall e :: e in entries && e.DirEntry? ==> e.treeId < bound
    decreases bound, |entries|
  {
    if entries == [] then Nil
    else
      var node := match entries[0]
        case FileEntry(_, b) => FileNode(b)
        case DirEntry(_, t) => DirNode(LoadTree(s, t));
      Cons(entries[0].name, node, LoadEntries(s, entries[1..], bound))
  }

  /** The nested form of one entry. */
  function LoadNode(s: Store, e: Entry): Node
    requires Sound(s)
  {
    match e
    case FileEntry(_, b) => FileNode(b)
    case DirEntry(_, t) => DirNode(LoadTree(s, t))
  }

  /** Blob references and names that may be saved into a store with `blobs` blobs. */
  predicate Saveable(c: Children, blobs: nat) {
    match c
    case Nil => true
    case Cons(n, node, rest) =>
      NameSafe(n) && Saveable(rest, blobs) &&
      (match node case FileNode(b) => b < blobs case DirNode(k) => Saveable(k, blobs))
  }

  lemma {:induction false} GetLoaded(s: Store, entries: seq<Entry>, bound: nat, name: string)
    requires Sound(s) && forall e :: e in entries && e.DirEntry? ==> e.treeId < bound
    ensures Get(LoadEntries(s, entries, bound), name) ==
      match EntryNamed(entries, name) case None => None case Some(e) => Some(LoadNode(s, e))
    decreases |entries|
  {
    if entries == [] {
    } else {
      GetLoaded(s, entries[1..], bound, name);
    }
  }

  lemma LoadedNames(s: Store, entries: seq<Entry>, bound: nat)
    requires Sound(s) && forall e :: e in entries && e.DirEntry? ==> e.treeId < bound
    ensures forall n :: n in Names(LoadEntries(s, entries, bound)) <==> exists e :: e in entries && e.name == n
    decreases |entries|
  {
    forall n ensures n in Names(LoadEntries(s, entries, bound)) <==> exists e :: e in entries && e.name == n {
      GetLoaded(s, entries, bound, n);
      GetInNames(LoadEntries(s, entries, bound), n);
      EntryNamedIs(entries, n);
    }
  }

  /** A loaded tree has distinct names at every level and can be saved again. */
  lemma {:induction false} LoadedIsGood(s: Store, entries: seq<Entry>, bound: nat)
    requires Sound(s) && Storable(entries, |s.blobs|, bound) && bound <= |s.trees|
    ensures WellFormed(LoadEntries(s, entries, bound)) && Saveable(LoadEntries(s, entries, bound), |s.blobs|)
    decreases bound, |entries|
  {
    if entries == [] {
    } else {
      var e, rest := entries[0], entries[1..];
      HeadNotInTail(entries);
      LoadedIsGood(s, rest, bound);
      LoadedNames(s, rest, bound);
      forall f | f in rest ensures f.name != e.name {
        var k :| 0 <= k < |rest| && rest[k] == f;
        assert entries[k + 1] == f;
      }
      assert e in entries;
      if e.DirEntry? {
        assert Storable(s.trees[e.treeId].entries, |s.blobs|, e.treeId);
        LoadedIsGood(s, s.trees[e.treeId].entries, e.treeId);
      }
    }
  }

  lemma LoadedTreeIsGood(s: Store, id: nat)
    requires Sound(s)
    ensures WellFormed(LoadTree(s, id)) && Saveable(LoadTree(s, id), |s.blobs|)
  {
    if id < |s.trees| { LoadedIsGood(s, s.trees[id].entries, id); }
  }

  /** A tree loads the same from a store that has grown. */
  lemma {:induction false} LoadStable(s: Store, s': Store, entries: seq<Entry>, bound: nat)
    requires Sound(s) && Sound(s') && Extends(s, s') && bound <= |s.trees|
    requires forall e :: e in entries && e.DirEntry? ==> e.treeId < bound
    ensures LoadEntries(s', entries, bound) == LoadEntries(s, entries, bound)
    decreases bound, |entries|
  {
    if entries == [] {
    } else {
      var e := entries[0];
      LoadStable(s, s', entries[1..], bound);
      if e.DirEntry? {
        assert e in entries && s'.trees[e.treeId] == s.trees[e.treeId];
        LoadStable(s, s', s.trees[e.treeId].entries, e.treeId);
      }
    }
  }

  lemma LoadTreeStable(s: Store, s': Store, id: nat)
    requires Sound(s) && Sound(s') && Extends(s, s') && id < |s.trees|
    ensures LoadTree(s', id) == LoadTree(s, id)
  {
    LoadStable(s, s', s.trees[id].entries, id);
  }

  /** What a path leads to in nested contents. */
  ghost function Look(contents: map<string, Contents>, p: Path): Option<Contents>
    requires p != []
    decreases |p|
  {
    if p[0] !in contents then None
    else if |p| == 1 then Some(contents[p[0]])
    else match contents[p[0]]
      case Text(_) => None
      case Folder(entries) => Look(entries, p[1..])
  }

  /** A loaded tree has at each path the text, or the folder, that the id stands for there, and nothing else. */
  lemma {:induction false} LoadShowsContents(s: Store, id: nat, p: Path)
    requires Sound(s) && id < |s.trees| && p != []
    ensures match Look(TreeContents(s, id), p)
      case Some(Text(content)) =>
        At(LoadTree(s, id), p).Some? && At(LoadTree(s, id), p).value < |s.blobs|
        && s.blobs[At(LoadTree(s, id), p).value].content == content
      case Some(Folder(_)) => At(LoadTree(s, id), p) == None && HasDir(LoadTree(s, id), p)
      case None => At(LoadTree(s, id), p) == None && !HasDir(LoadTree(s, id), p)
    decreases |p|
  {
    var entries := s.trees[id].entries;
    assert Storable(entries, |s.blobs|, id);
    GetLoaded(s, entries, id, p[0]);
    EntryNamedIs(entries, p[0]);
    var e := EntryNamed(entries, p[0]);
    if e.Some? {
      ContentsOfEntry(s, id, e.value);
      if e.value.DirEntry? && |p| > 1 { LoadShowsContents(s, e.value.treeId, p[1..]); }
    }
  }

  /** A tree that is not stored loads as the empty directory. */
  lemma MissingLoadsEmpty(s: Store, id: nat)
    requires Sound(s) && id >= |s.trees|
    ensures forall name :: Get(LoadTree(s, id), name) == None
  {
  }

  // ---------------------------------------------------------------- saving

  /** saveTree: children first, then the tree itself. */
  function SaveTree(s: Store, c: Children, le: NameOrder): (Store, nat)
    decreases c, 1
  {
    var (s', entries) := SaveEntries(s, c, le);
    GetOrCreateTree(s', entries, le)
  }

  function SaveEntries(s: Store, c: Children, le: NameOrder): (Store, seq<Entry>)
    decreases c, 0
  {
    match c
    case Nil => (s, [])
    case Cons(n, FileNode(b), rest) =>
      var (s', entries) := SaveEntries(s, rest, le);
      (s', [FileEntry(n, b)] + entries)
    case Cons(n, DirNode(k), rest) =>
      var (s1, id) := SaveTree(s, k, le);
      var (s2, entries) := SaveEntries(s1, rest, le);
      (s2, [DirEntry(n, id)] + entries)
  }

  /** Saving keeps the store valid and yields entries that load back to the same files. */
  lemma {:induction false} SaveEntriesKeeps(s: Store, c: Children, le: NameOrder)
    requires Valid(s, le) && TotalPreorder(le) && WellFormed(c) && Saveable(c, |s.blobs|)
    ensures var (s', entries) := SaveEntries(s, c, le);
      && Valid(s', le) && Extends(s, s') && s'.blobs == s.blobs
      && Storable(entries, |s'.blobs|, |s'.trees|)
      && (forall n :: n in Names(c) <==> exists e :: e in entries && e.name == n)
      && (forall p :: At(LoadEntries(s', entries, |s'.trees|), p) == At(c, p))
    decreases c, 0
  {
    match c
    case Nil =>
    case Cons(n, FileNode(b), rest) =>
      SaveEntriesKeeps(s, rest, le);
      var (s', entries) := SaveEntries(s, rest, le);
      ConsKeeps(s', FileEntry(n, b), FileNode(b), rest, entries);
    case Cons(n, DirNode(k), rest) =>
      SaveTreeKeeps(s, k, le);
      var (s1, id) := SaveTree(s, k, le);
      SaveEntriesKeeps(s1, rest, le);
      var (s2, entries) := SaveEntries(s1, rest, le);
      LoadTreeStable(s1, s2, id);
      ConsKeeps(s2, DirEntry(n, id), DirNode(k), rest, entries);
  }

  /** One entry more, for a node that loads back to the same files. */
  lemma ConsKeeps(s: Store, e: Entry, node: Node, rest: Children, entries: seq<Entry>)
    requires Sound(s) && Storable(entries, |s.blobs|, |s.trees|) && NameOk(e) && e.name !in Names(rest)
    requires forall n :: n in Names(rest) <==> exists f :: f in entries && f.name == n
    requires forall p :: At(LoadEntries(s, entries, |s.trees|), p) == At(rest, p)
    requires match node
      case FileNode(b) => e == FileEntry(e.name, b) && b < |s.blobs|
      case DirNode(k) => e.DirEntry? && e.treeId < |s.trees| && forall p :: At(LoadTree(s, e.treeId), p) == At(k, p)
    ensures var all := [e] + entries;
      && Storable(all, |s.blobs|, |s.trees|)
      && (forall n :: n in Names(Cons(e.name, node, rest)) <==> exists f :: f in all && f.name == n)
      && (forall p :: At(LoadEntries(s, all, |s.trees|), p) == At(Cons(e.name, node, rest), p))
  {
    var all, c := [e] + entries, Cons(e.name, node, rest);
    assert all[1..] == entries;
    forall i | 0 <= i < |entries| ensures entries[i].name != e.name {
      assert entries[i] in entries;
    }
    forall n ensures n in Names(c) <==> exists f :: f in all && f.name == n {
      if n in Names(rest) {
        var f :| f in entries && f.name == n;
        assert f in all;
      } else if n == e.name {
        assert e in all;
      }
    }
    forall p ensures At(LoadEntries(s, all, |s.trees|), p) == At(c, p) {
      assert At(LoadEntries(s, entries, |s.trees|), p) == At(rest, p);
      assert LoadEntries(s, all, |s.trees|).rest == LoadEntries(s, entries, |s.trees|);
    }
  }

  /** The order of entries does not matter to what is loaded. */
  lemma LoadedOrderIrrelevant(s: Store, a: seq<Entry>, b: seq<Entry>, bound: nat, p: Path)
    requires Sound(s) && DistinctNames(a) && DistinctNames(b) && forall e :: e in a <==> e in b
    requires forall e :: e in a && e.DirEntry? ==> e.treeId < bound
    ensures At(LoadEntries(s, a, bound), p) == At(LoadEntries(s, b, bound), p)
  {
    if p != [] {
      GetLoaded(s, a, bound, p[0]);
      GetLoaded(s, b, bound, p[0]);
      EntryNamedIs(a, p[0]);
      EntryNamedIs(b, p[0]);
      if EntryNamed(a, p[0]).Some? { EntryIsNamed(b, EntryNamed(a, p[0]).value); }
    }
  }

  /** The same entries under another termination bound load alike. */
  lemma LoadedBoundIrrelevant(s: Store, entries: seq<Entry>, b1: nat, b2: nat)
    requires Sound(s)
    requires forall e :: e in entries && e.DirEntry? ==> e.treeId < b1 && e.treeId < b2
    ensures LoadEntries(s, entries, b1) == LoadEntries(s, entries, b2)
    decreases |entries|
  {
    if entries != [] { LoadedBoundIrrelevant(s, entries[1..], b1, b2); }
  }

  /** A saved tree loads back to the same files, from a store that is still valid. */
  lemma {:induction false} SaveTreeKeeps(s: Store, c: Children, le: NameOrder)
    requires Valid(s, le) && TotalPreorder(le) && WellFormed(c) && Saveable(c, |s.blobs|)
    ensures var (s', id) := SaveTree(s, c, le);
      && Valid(s', le) && Extends(s, s') && s'.blobs == s.blobs && id < |s'.trees|
      && (forall p :: At(LoadTree(s', id), p) == At(c, p))
    decreases c, 1
  {
    SaveEntriesKeeps(s, c, le);
    var (s1, entries) := SaveEntries(s, c, le);
    TreeCreated(s1, entries, le);
    var (s2, id) := GetOrCreateTree(s1, entries, le);
    var sorted := Sort(entries, ByName(le));
    SortKeepsEntries(entries, le, |s1.blobs|, |s1.trees|);
    LoadStable(s1, s2, entries, |s1.trees|);
    LoadedBoundIrrelevant(s2, sorted, id, |s2.trees|);
    LoadedBoundIrrelevant(s2, entries, |s1.trees|, |s2.trees|);
    forall p ensures At(LoadTree(s2, id), p) == At(c, p) {
      LoadedOrderIrrelevant(s2, entries, sorted, |s2.trees|, p);
    }
  }

  /** Asking for a stored tree by its own entries finds it. */
  lemma StoredIsFound(s: Store, id: nat, le: NameOrder)
    requires Valid(s, le) && TotalPreorder(le) && id < |s.trees|
    ensures GetOrCreateTree(s, s.trees[id].entries, le) == (s, id)
  {
    var entries := s.trees[id].entries;
    StoredIsSorted(s, id, le);
    FindTreeFinds(s.trees, HashTree(entries, le));
  }

  lemma StoredIsSorted(s: Store, id: nat, le: NameOrder)
    requires Valid(s, le) && TotalPreorder(le) && id < |s.trees|
    ensures Sort(s.trees[id].entries, ByName(le)) == s.trees[id].entries
  {
    NameOrderIsPreorder(le);
    SortOfSorted(s.trees[id].entries, ByName(le));
  }

  /** Saving a loaded list of entries gives the same entries and adds nothing to the store. */
  lemma {:induction false} SaveLoadedEntries(s: Store, entries: seq<Entry>, bound: nat, le: NameOrder)
    requires Valid(s, le) && TotalPreorder(le) && bound <= |s.trees| && Storable(entries, |s.blobs|, bound)
    ensures SaveEntries(s, LoadEntries(s, entries, bound), le) == (s, entries)
    decreases bound, |entries|
  {
    if entries == [] {
    } else {
      var e, rest := entries[0], entries[1..];
      HeadNotInTail(entries);
      SaveLoadedEntries(s, rest, bound, le);
      assert e in entries && entries == [e] + rest;
      if e.DirEntry? { SaveOfLoadIsIdentity(s, e.treeId, le); }
    }
  }

  /** Saving an unmodified loaded tree returns the id it was loaded from and leaves the store as it was. */
  lemma {:induction false} SaveOfLoadIsIdentity(s: Store, id: nat, le: NameOrder)
    requires Valid(s, le) && TotalPreorder(le) && id < |s.trees|
    ensures SaveTree(s, LoadTree(s, id), le) == (s, id)
    decreases id, |s.trees[id].entries| + 1
  {
    SaveLoadedEntries(s, s.trees[id].entries, id, le);
    StoredIsFound(s, id, le);
  }
}
