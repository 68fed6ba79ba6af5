/**
 Runs of the creating calls on the tables of a workspace: every store that they reach from the empty one is valid, so an
 id stands for one nested content and a content has one id.
 */
module ContentRuns {
  import opened Wrappers
  import opened TreePrint
  import opened Sorting
  import opened ContentTree
  import opened ContentStore
  import opened ContentMerkle
  import opened ContentBuild

  datatype Creation =
    | CreateBlob(content: string, binary: bool)
    | CreateTree(entries: seq<Entry>)
    | CreateEmpty
    | BuildTree(baseTreeId: Option<nat>, changes: seq<RawChange>)

  /** What the callers see to: entries have distinct safe names and refer to what is stored; changes are usable. */
  ghost predicate Allowed(s: Store, call: Creation) {
    match call
    case CreateTree(entries) => Storable(entries, |s.blobs|, |s.trees|)
    case BuildTree(_, changes) => forall i :: 0 <= i < |changes| ==> Usable(s, changes[i])
    case _ => true
  }

  function After(s: Store, call: Creation, le: NameOrder): Store
    requires Sound(s)
  {
    match call
    case CreateBlob(content, binary) => GetOrCreateBlob(s, content, binary).0
    case CreateTree(entries) => GetOrCreateTree(s, entries, le).0
    case CreateEmpty => CreateEmptyTree(s).0
    case BuildTree(base, changes) => Build(s, base, changes, le).0
  }

  /** The calls lead from one store to another, each allowed at its turn. */
  ghost predicate Run(s: Store, calls: seq<Creation>, s': Store, le: NameOrder)
    decreases |calls|
  {
    if calls == [] then s' == s
    else Sound(s) && Allowed(s, calls[0]) && Run(After(s, calls[0], le), calls[1..], s', le)
  }

  lemma AfterIsValid(s: Store, call: Creation, le: NameOrder)
    requires Valid(s, le) && TotalPreorder(le) && Allowed(s, call)
    ensures Valid(After(s, call, le), le) && Extends(s, After(s, call, le))
  {
    match call
    case CreateBlob(content, binary) => BlobCreated(s, content, binary, le);
    case CreateTree(entries) => TreeCreated(s, entries, le);
    case CreateEmpty =>
      EmptyTreeIsATree(s, le);
      TreeCreated(s, [], le);
    case BuildTree(base, changes) => BuildSaves(s, base, changes, le);
  }

  /** Every run keeps the store valid and never changes a record. */
  lemma {:induction false} RunIsValid(s: Store, calls: seq<Creation>, s': Store, le: NameOrder)
    requires Valid(s, le) && TotalPreorder(le) && Run(s, calls, s', le)
    ensures Valid(s', le) && Extends(s, s')
    decreases |calls|
  {
    if calls == [] {
    } else {
      AfterIsValid(s, calls[0], le);
      RunIsValid(After(s, calls[0], le), calls[1..], s', le);
    }
  }

  /** The order of names tells apart all names that may be stored. */
  ghost predicate TellsNames(le: NameOrder) {
    forall a, b :: NameSafe(a) && NameSafe(b) && le(a, b) && le(b, a) ==> a == b
  }

  lemma ToldInStore(s: Store, le: NameOrder)
    requires Valid(s, le) && TellsNames(le)
    ensures TreesTold(s, le)
  {
    forall i | 0 <= i < |s.trees| ensures NamesTold(s.trees[i].entries, le) {
      var entries := s.trees[i].entries;
      assert Storable(entries, |s.blobs|, i);
      forall e, f | e in multiset(entries) && f in multiset(entries) && ByName(le)(e, f) && ByName(le)(f, e)
        ensures e == f
      {
        assert e in entries && f in entries && NameOk(e) && NameOk(f);
        assert e.name == f.name;
        EntryIsNamed(entries, e);
        EntryIsNamed(entries, f);
      }
    }
  }

  /** An id stands for one nested content, and a content has one id. */
  ghost predicate IdsTellContents(s: Store) {
    && Sound(s)
    && forall i: nat, j: nat :: i < |s.trees| && j < |s.trees| ==>
         (TreeContents(s, i) == TreeContents(s, j) <==> i == j)
  }

  ghost predicate Reached(s: Store, le: NameOrder) {
    exists calls :: Run(Store([], []), calls, s, le)
  }

  /** In every store reached from the empty one, ids tell contents, exactly when the order tells all names apart. */
  lemma ReachedContentsIff(le: NameOrder)
    requires TotalPreorder(le)
    ensures TellsNames(le) <==> forall s :: Reached(s, le) ==> IdsTellContents(s)
  {
    forall s | TellsNames(le) && Reached(s, le) ensures IdsTellContents(s) {
      ReachedContents(s, le);
    }
    if !TellsNames(le) {
      var a, b :| NameSafe(a) && NameSafe(b) && le(a, b) && le(b, a) && a != b;
      var s := UntoldNamesTwoIds(a, b, le);
    }
  }

  lemma ReachedContents(s: Store, le: NameOrder)
    requires TotalPreorder(le) && TellsNames(le) && Reached(s, le)
    ensures Valid(s, le) && IdsTellContents(s)
  {
    var calls :| Run(Store([], []), calls, s, le);
    RunIsValid(Store([], []), calls, s, le);
    ToldInStore(s, le);
    forall i: nat, j: nat | i < |s.trees| && j < |s.trees|
      ensures TreeContents(s, i) == TreeContents(s, j) <==> i == j
    {
      SameContentsSameId(s, i, j, le);
    }
  }

  /** Two names that the order takes for equal: their files, listed in the two orders, get two ids. */
  lemma UntoldNamesTwoIds(a: string, b: string, le: NameOrder) returns (s: Store)
    requires TotalPreorder(le) && NameSafe(a) && NameSafe(b) && a != b && le(a, b) && le(b, a)
    ensures Reached(s, le) && Sound(s) && |s.trees| == 2 && TreeContents(s, 0) == TreeContents(s, 1)
    ensures !IdsTellContents(s)
  {
    var e, f := FileEntry(a, 0), FileEntry(b, 0);
    var s1 := OneBlob(le);
    var s2 := FirstTree(s1, [e, f], le);
    s := SecondTree(s2, e, f, le);
    SameEntriesSameContents(s, 0, 1);
    TwoIdsReached(e, f, s1, s2, s, le);
  }

  lemma OneBlob(le: NameOrder) returns (s: Store)
    ensures s == GetOrCreateBlob(Store([], []), "", false).0 && Valid(s, le) && |s.blobs| == 1 && s.trees == []
  {
    s := GetOrCreateBlob(Store([], []), "", false).0;
    BlobCreated(Store([], []), "", false, le);
  }

  lemma TwoIdsReached(e: Entry, f: Entry, s1: Store, s2: Store, s: Store, le: NameOrder)
    requires s1 == GetOrCreateBlob(Store([], []), "", false).0 && Sound(s1) && s1.trees == []
    requires Storable([e, f], |s1.blobs|, 0) && s2 == GetOrCreateTree(s1, [e, f], le).0 && Sound(s2)
    requires Storable([f, e], |s2.blobs|, |s2.trees|) && s == GetOrCreateTree(s2, [f, e], le).0
    ensures Reached(s, le)
  {
    var calls := [CreateBlob("", false), CreateTree([e, f]), CreateTree([f, e])];
    ThreeCalls(calls, s1, s2, s, le);
  }

  lemma FirstTree(s: Store, entries: seq<Entry>, le: NameOrder) returns (s': Store)
    requires Valid(s, le) && TotalPreorder(le) && s.trees == [] && Storable(entries, |s.blobs|, 0)
    ensures s' == GetOrCreateTree(s, entries, le).0 && Valid(s', le)
    ensures |s'.trees| == 1 && s'.trees[0].entries == Sort(entries, ByName(le)) && s'.blobs == s.blobs
  {
    TreeCreated(s, entries, le);
    s' := GetOrCreateTree(s, entries, le).0;
  }

  /** The same entries in the other order are another tree when the order takes the two names for equal. */
  lemma SecondTree(s: Store, e: Entry, f: Entry, le: NameOrder) returns (s': Store)
    requires Valid(s, le) && TotalPreorder(le) && e.name != f.name && le(e.name, f.name) && le(f.name, e.name)
    requires |s.trees| == 1 && s.trees[0].entries == Sort([e, f], ByName(le)) && Storable([f, e], |s.blobs|, 1)
    ensures s' == GetOrCreateTree(s, [f, e], le).0 && Valid(s', le)
    ensures |s'.trees| == 2 && s'.trees[0].entries == [e, f] && s'.trees[1].entries == [f, e]
  {
    TreeCreated(s, [f, e], le);
    SortPair(e, f, le);
    SortPair(f, e, le);
    s' := GetOrCreateTree(s, [f, e], le).0;
  }

  lemma ThreeCalls(calls: seq<Creation>, s1: Store, s2: Store, s3: Store, le: NameOrder)
    requires |calls| == 3 && Sound(s1) && Sound(s2) && Allowed(Store([], []), calls[0])
    requires s1 == After(Store([], []), calls[0], le) && Allowed(s1, calls[1]) && s2 == After(s1, calls[1], le)
    requires Allowed(s2, calls[2]) && s3 == After(s2, calls[2], le)
    ensures Run(Store([], []), calls, s3, le)
  {
    assert calls[1..][0] == calls[1] && calls[1..][1..] == [calls[2]] && [calls[2]][1..] == [];
    assert Run(s3, [], s3, le);
    assert Run(s2, [calls[2]], s3, le);
    assert Run(s1, calls[1..], s3, le);
  }

  /** What a tree id stood for at some point of a run, it stands for ever after. */
  lemma ContentsForever(before: seq<Creation>, s: Store, after: seq<Creation>, s': Store, id: nat, le: NameOrder)
    requires TotalPreorder(le) && Run(Store([], []), before, s, le) && Run(s, after, s', le) && id < |s.trees|
    ensures Valid(s', le) && id < |s'.trees| && LoadTree(s', id) == LoadTree(s, id)
  {
    RunIsValid(Store([], []), before, s, le);
    RunIsValid(s, after, s', le);
    LoadTreeStable(s, s', id);
  }
}
