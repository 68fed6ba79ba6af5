/**
 The content-addressed tables of one workspace (services/backend/convex/content.ts): blobs and trees, found by the
 hash of their content and created when absent. Ids are positions in the tables. SHA-256 is taken as collision-free:
 a digest determines the text that was hashed.
 */
module ContentStore {
  import opened Wrappers
  import opened Decimals
  import opened TreePrint
  import opened Sorting
  import opened ContentTree

  datatype Digest = Sha256(text: string)

  datatype BlobRecord = BlobRecord(hash: Digest, content: string, binary: bool)
  datatype TreeRecord = TreeRecord(hash: Digest, entries: seq<Entry>)
  datatype Store = Store(blobs: seq<BlobRecord>, trees: seq<TreeRecord>)

  /** The order of names that `localeCompare` defines. */
  type NameOrder = (string, string) -> bool

  function ByName(le: NameOrder): (Entry, Entry) -> bool {
    (a: Entry, b: Entry) => le(a.name, b.name)
  }

  // ---------------------------------------------------------------- operations

  function FindBlob(blobs: seq<BlobRecord>, hash: Digest): Option<nat> {
    if blobs == [] then None
    else match FindBlob(blobs[..|blobs| - 1], hash)
      case Some(i) => Some(i)
      case None => if blobs[|blobs| - 1].hash == hash then Some(|blobs| - 1) else None
  }

  function FindTree(trees: seq<TreeRecord>, hash: Digest): Option<nat> {
    if trees == [] then None
    else match FindTree(trees[..|trees| - 1], hash)
      case Some(i) => Some(i)
      case None => if trees[|trees| - 1].hash == hash then Some(|trees| - 1) else None
  }

  function GetOrCreateBlob(s: Store, content: string, binary: bool): (Store, nat) {
    match FindBlob(s.blobs, Sha256(content))
    case Some(i) => (s, i)
    case None => (s.(blobs := s.blobs + [BlobRecord(Sha256(content), content, binary)]), |s.blobs|)
  }

  function HashTree(entries: seq<Entry>, le: NameOrder): Digest {
    Sha256(PrintLines(Sort(entries, ByName(le))))
  }

  function GetOrCreateTree(s: Store, entries: seq<Entry>, le: NameOrder): (Store, nat) {
    match FindTree(s.trees, HashTree(entries, le))
    case Some(i) => (s, i)
    case None =>
      (s.(trees := s.trees + [TreeRecord(HashTree(entries, le), Sort(entries, ByName(le)))]), |s.trees|)
  }

  function CreateEmptyTree(s: Store): (Store, nat) {
    match FindTree(s.trees, Sha256(""))
    case Some(i) => (s, i)
    case None => (s.(trees := s.trees + [TreeRecord(Sha256(""), [])]), |s.trees|)
  }

  // ---------------------------------------------------------------- the invariant of every reachable store

  predicate DistinctNames(entries: seq<Entry>) {
    forall i, j :: 0 <= i < j < |entries| ==> entries[i].name != entries[j].name
  }

  /** Entries that may be stored when the tables hold `blobs` blobs and `trees` trees. */
  predicate Storable(entries: seq<Entry>, blobs: nat, trees: nat) {
    && DistinctNames(entries)
    && forall e :: e in entries ==> NameOk(e) && (if e.FileEntry? then e.blobId < blobs else e.treeId < trees)
  }

  /** Children are inserted before parents, entries are sorted, and no two records share a hash. */
  ghost predicate Valid(s: Store, le: NameOrder) {
    && (forall i :: 0 <= i < |s.blobs| ==> s.blobs[i].hash == Sha256(s.blobs[i].content))
    && (forall i, j :: 0 <= i < j < |s.blobs| ==> s.blobs[i].hash != s.blobs[j].hash)
    && (forall i :: 0 <= i < |s.trees| ==>
          && s.trees[i].hash == Sha256(PrintLines(s.trees[i].entries))
          && Storable(s.trees[i].entries, |s.blobs|, i)
          && SortedBy(s.trees[i].entries, ByName(le)))
    && (forall i, j :: 0 <= i < j < |s.trees| ==> s.trees[i].hash != s.trees[j].hash)
  }

  ghost predicate Extends(s: Store, s': Store) {
    s.blobs <= s'.blobs && s.trees <= s'.trees
  }

  lemma {:induction false} FindBlobFinds(blobs: seq<BlobRecord>, hash: Digest)
    ensures match FindBlob(blobs, hash)
      case Some(i) => i < |blobs| && blobs[i].hash == hash
      case None => forall i :: 0 <= i < |blobs| ==> blobs[i].hash != hash
  {
    if blobs == [] {
    } else {
      FindBlobFinds(blobs[..|blobs| - 1], hash);
    }
  }

  lemma {:induction false} FindTreeFinds(trees: seq<TreeRecord>, hash: Digest)
    ensures match FindTree(trees, hash)
      case Some(i) => i < |trees| && trees[i].hash == hash
      case None => forall i :: 0 <= i < |trees| ==> trees[i].hash != hash
  {
    if trees == [] {
    } else {
      FindTreeFinds(trees[..|trees| - 1], hash);
    }
  }

  /** The blob holds the text; its flag is the one asked for unless a record was there. */
  lemma BlobCreated(s: Store, content: string, binary: bool, le: NameOrder)
    requires Valid(s, le)
    ensures var (s', id) := GetOrCreateBlob(s, content, binary);
      Valid(s', le) && Extends(s, s') && s'.trees == s.trees && id < |s'.blobs| && s'.blobs[id].content == content
  {
    FindBlobFinds(s.blobs, Sha256(content));
  }

  lemma NameOrderIsPreorder(le: NameOrder)
    requires TotalPreorder(le)
    ensures TotalPreorder(ByName(le))
  {
    forall a, b: Entry ensures ByName(le)(a, b) || ByName(le)(b, a) {
      assert le(a.name, b.name) || le(b.name, a.name);
    }
    forall a, b, c: Entry | ByName(le)(a, b) && ByName(le)(b, c) ensures ByName(le)(a, c) {
      assert le(a.name, b.name) && le(b.name, c.name);
    }
  }

  lemma HeadAndTail(head: Entry, tail: seq<Entry>, r: seq<Entry>, x: Entry)
    requires DistinctNames([head] + tail) && DistinctNames(r) && x.name != head.name
    requires forall e :: e in r <==> e == x || e in tail
    ensures DistinctNames([head] + r)
  {
    var all := [head] + tail;
    forall i | 0 <= i < |r| ensures r[i].name != head.name {
      assert r[i] in r;
      if r[i] in tail {
        var k :| 0 <= k < |tail| && tail[k] == r[i];
        assert all[0] == head && all[k + 1] == r[i];
      }
    }
  }

  lemma {:induction false} InsertKeepsDistinct(x: Entry, s: seq<Entry>, le: NameOrder)
    requires DistinctNames(s) && forall e :: e in s ==> e.name != x.name
    ensures var r := Insert(x, s, ByName(le)); DistinctNames(r) && forall e :: e in r <==> e == x || e in s
  {
    if s != [] && !le(x.name, s[0].name) {
      InsertKeepsDistinct(x, s[1..], le);
      assert s == [s[0]] + s[1..];
      HeadAndTail(s[0], s[1..], Insert(x, s[1..], ByName(le)), x);
    }
  }

  lemma {:induction false} SortKeepsDistinct(s: seq<Entry>, le: NameOrder)
    requires DistinctNames(s)
    ensures var r := Sort(s, ByName(le)); DistinctNames(r) && forall e :: e in r <==> e in s
  {
    if s == [] {
    } else {
      SortKeepsDistinct(s[1..], le);
      assert s == [s[0]] + s[1..];
      InsertKeepsDistinct(s[0], Sort(s[1..], ByName(le)), le);
    }
  }

  lemma SortKeepsEntries(entries: seq<Entry>, le: NameOrder, blobs: nat, trees: nat)
    requires TotalPreorder(le) && Storable(entries, blobs, trees)
    ensures var sorted := Sort(entries, ByName(le));
      && Storable(sorted, blobs, trees) && SortedBy(sorted, ByName(le))
      && (forall e :: e in sorted <==> e in entries)
  {
    NameOrderIsPreorder(le);
    SortSorts(entries, ByName(le));
    SortKeepsDistinct(entries, le);
  }

  lemma HeadNotInTail(a: seq<Entry>)
    requires a != [] && DistinctNames(a)
    ensures a[0] !in a[1..] && DistinctNames(a[1..])
  {
    forall k | 0 <= k < |a[1..]| ensures a[1..][k] != a[0] { assert a[k + 1].name != a[0].name; }
  }

  lemma BothEmpty(a: seq<Entry>, b: seq<Entry>)
    requires forall e :: e in a <==> e in b
    ensures a == [] <==> b == []
  {
    if a != [] { assert a[0] in a; }
    if b != [] { assert b[0] in b; }
  }

  lemma FirstIsLeast(a: seq<Entry>, e: Entry, le: NameOrder)
    requires TotalPreorder(le) && SortedBy(a, ByName(le)) && e in a
    ensures le(a[0].name, e.name)
  {
    var i :| 0 <= i < |a| && a[i] == e;
    assert i > 0 ==> ByName(le)(a[0], a[i]);
  }

  /** The order of names tells the entries apart. */
  ghost predicate NamesTold(entries: seq<Entry>, le: NameOrder) {
    Told(multiset(entries), ByName(le))
  }

  lemma ToldInTail(a: seq<Entry>, le: NameOrder)
    requires a != [] && NamesTold(a, le)
    ensures NamesTold(a[1..], le)
  {
    assert forall e :: e in multiset(a[1..]) ==> e in a[1..];
    assert forall e :: e in a[1..] ==> e in multiset(a);
  }

  /** Two sorted lists with the same entries begin with the same one. */
  lemma SameLeast(a: seq<Entry>, b: seq<Entry>, le: NameOrder)
    requires TotalPreorder(le) && NamesTold(a, le) && a != [] && b != []
    requires SortedBy(a, ByName(le)) && SortedBy(b, ByName(le))
    requires forall e :: e in a <==> e in b
    ensures a[0] == b[0]
  {
    FirstIsLeast(a, b[0], le);
    FirstIsLeast(b, a[0], le);
    assert a[0] in multiset(a) && b[0] in multiset(a) && ByName(le)(a[0], b[0]) && ByName(le)(b[0], a[0]);
  }

  lemma SameRest(a: seq<Entry>, b: seq<Entry>)
    requires a != [] && b != [] && a[0] == b[0] && DistinctNames(a) && DistinctNames(b)
    requires forall e :: e in a <==> e in b
    ensures forall e :: e in a[1..] <==> e in b[1..]
  {
    HeadNotInTail(a);
    HeadNotInTail(b);
    assert a == [a[0]] + a[1..] && b == [b[0]] + b[1..];
    forall e ensures e in a[1..] <==> e in b[1..] {
      assert e in a <==> e == a[0] || e in a[1..];
      assert e in b <==> e == b[0] || e in b[1..];
    }
  }

  /** Two sorted lists with the same entries are the same list, when the order of names tells the entries apart. */
  lemma {:induction false} SortedListsAgree(a: seq<Entry>, b: seq<Entry>, le: NameOrder)
    requires TotalPreorder(le) && DistinctNames(a) && DistinctNames(b) && NamesTold(a, le)
    requires SortedBy(a, ByName(le)) && SortedBy(b, ByName(le))
    requires forall e :: e in a <==> e in b
    ensures a == b
  {
    BothEmpty(a, b);
    if a == [] {
    } else {
      SameLeast(a, b, le);
      SameRest(a, b);
      HeadNotInTail(a);
      HeadNotInTail(b);
      ToldInTail(a, le);
      SortedListsAgree(a[1..], b[1..], le);
      assert a == [a[0]] + a[1..] && b == [b[0]] + b[1..];
    }
  }

  lemma TreeCreated(s: Store, entries: seq<Entry>, le: NameOrder)
    requires Valid(s, le) && TotalPreorder(le) && Storable(entries, |s.blobs|, |s.trees|)
    ensures var (s', id) := GetOrCreateTree(s, entries, le);
      && Valid(s', le) && Extends(s, s') && s'.blobs == s.blobs
      && id < |s'.trees| && s'.trees[id].entries == Sort(entries, ByName(le))
  {
    var sorted := Sort(entries, ByName(le));
    SortKeepsEntries(entries, le, |s.blobs|, |s.trees|);
    FindTreeFinds(s.trees, HashTree(entries, le));
    var found := FindTree(s.trees, HashTree(entries, le));
    if found.Some? {
      PrintInjective(s.trees[found.value].entries, sorted);
    }
  }

  lemma EmptyTreeIsATree(s: Store, le: NameOrder)
    ensures CreateEmptyTree(s) == GetOrCreateTree(s, [], le)
  {
  }

  /** The id of a tree does not depend on the order in which its entries are given, when their names are told apart. */
  lemma EntryOrderIrrelevant(s: Store, a: seq<Entry>, b: seq<Entry>, le: NameOrder)
    requires TotalPreorder(le) && NamesTold(a, le) && multiset(a) == multiset(b)
    ensures GetOrCreateTree(s, a, le) == GetOrCreateTree(s, b, le)
  {
    NameOrderIsPreorder(le);
    SortForgetsOrder(a, b, ByName(le));
  }

  /** That is exactly when: `localeCompare` takes canonically equivalent names for equal, and then the order shows. */
  lemma EntryOrderIrrelevantIff(s: Store, a: seq<Entry>, le: NameOrder)
    requires Valid(s, le) && TotalPreorder(le) && Storable(a, |s.blobs|, |s.trees|)
    ensures NamesTold(a, le) <==>
      forall b :: multiset(b) == multiset(a) ==> GetOrCreateTree(s, b, le) == GetOrCreateTree(s, a, le)
  {
    NameOrderIsPreorder(le);
    SortForgetsOrderIff(a, ByName(le));
    forall b | NamesTold(a, le) && multiset(b) == multiset(a)
      ensures GetOrCreateTree(s, b, le) == GetOrCreateTree(s, a, le)
    {
      EntryOrderIrrelevant(s, a, b, le);
    }
    if !NamesTold(a, le) {
      var b :| multiset(b) == multiset(a) && Sort(b, ByName(le)) != Sort(a, ByName(le));
      PermutedIsStorable(a, b, |s.blobs|, |s.trees|);
      TreeCreated(s, a, le);
      TreeCreated(s, b, le);
    }
  }

  lemma PermutedIsStorable(a: seq<Entry>, b: seq<Entry>, blobs: nat, trees: nat)
    requires Storable(a, blobs, trees) && multiset(b) == multiset(a)
    ensures Storable(b, blobs, trees)
  {
    forall e | e in b ensures e in a {
      assert e in multiset(b);
    }
    forall i, j | 0 <= i < j < |b| ensures b[i].name != b[j].name {
      TwoPlaces(a, b, i, j);
    }
  }

  /**
   The blob that is returned has the flag asked for, and so the bytes, exactly when no stored blob of the same text has
   the other flag: the flag is not part of what is hashed.
   */
  lemma BinaryFlagIff(s: Store, content: string, binary: bool, le: NameOrder)
    requires Valid(s, le)
    ensures var (s', id) := GetOrCreateBlob(s, content, binary);
      && id < |s'.blobs|
      && (s'.blobs[id].binary == binary <==> forall b :: b in s.blobs && b.content == content ==> b.binary == binary)
  {
    FindBlobFinds(s.blobs, Sha256(content));
    var found := FindBlob(s.blobs, Sha256(content));
    if found.Some? {
      assert s.blobs[found.value] in s.blobs;
      forall b | b in s.blobs && b.content == content ensures b == s.blobs[found.value] {
        var i :| 0 <= i < |s.blobs| && s.blobs[i] == b;
        assert s.blobs[i].hash == s.blobs[found.value].hash;
      }
    } else {
      forall b | b in s.blobs ensures b.content != content {
        var i :| 0 <= i < |s.blobs| && s.blobs[i] == b;
        assert s.blobs[i].hash != Sha256(content);
      }
    }
  }

  /** Text equal to a binary's encoding gets the binary's blob. */
  lemma BinaryFlagIgnored(content: string)
    ensures var (s1, i) := GetOrCreateBlob(Store([], []), content, true);
      var (s2, j) := GetOrCreateBlob(s1, content, false);
      i == j && s2.blobs[j].binary
  {
    var (s1, i) := GetOrCreateBlob(Store([], []), content, true);
    FindBlobFinds(s1.blobs, Sha256(content));
  }

  // ---------------------------------------------------------------- when two trees share an id

  ghost predicate TreeHashesDiffer(s: Store) {
    forall i, j :: 0 <= i < j < |s.trees| ==> s.trees[i].hash != s.trees[j].hash
  }

  /** Two lists of entries, whatever their names, get one id exactly when they print alike in name order. */
  lemma SameTreeIff(s: Store, a: seq<Entry>, b: seq<Entry>, le: NameOrder)
    requires TreeHashesDiffer(s)
    ensures var (s1, i) := GetOrCreateTree(s, a, le);
      var (s2, j) := GetOrCreateTree(s1, b, le);
      i == j <==> PrintLines(Sort(a, ByName(le))) == PrintLines(Sort(b, ByName(le)))
  {
    var (s1, i) := GetOrCreateTree(s, a, le);
    FindTreeFinds(s.trees, HashTree(a, le));
    FindTreeFinds(s1.trees, HashTree(b, le));
    assert s1.trees[i].hash == HashTree(a, le);
  }

  lemma SortPair(e: Entry, f: Entry, le: NameOrder)
    ensures Sort([e, f], ByName(le)) == if le(e.name, f.name) then [e, f] else [f, e]
  {
    assert [e, f][1..] == [f] && [f][1..] == [];
    assert Sort([f], ByName(le)) == [f];
    assert Insert(e, [f], ByName(le)) == if le(e.name, f.name) then [e, f] else [f, e];
  }

  lemma SortOne(e: Entry, le: NameOrder)
    ensures Sort([e], ByName(le)) == [e]
  {
  }

  lemma SwappedNamesCollide()
    ensures PrintLines([FileEntry("b", 2), FileEntry("a", 1)]) == PrintLines([FileEntry("b:2\nfile:a", 1)])
  {
    assert Decimal(1) == "1" && Decimal(2) == "2";
    PrintOfPair(FileEntry("b", 2), FileEntry("a", 1));
  }

  /**
   Under every name order there is a name that makes a tree of one file share the id of the tree of the files "a" and
   "b", although the two hold different paths.
   */
  lemma TreesCollide(s: Store, le: NameOrder)
    requires TreeHashesDiffer(s)
    ensures exists e: Entry ::
      var (s1, i) := GetOrCreateTree(s, [FileEntry("a", 1), FileEntry("b", 2)], le);
      e.name != "a" && e.name != "b" && GetOrCreateTree(s1, [e], le) == (s1, i)
  {
    var a, b := FileEntry("a", 1), FileEntry("b", 2);
    var e := if le("a", "b") then FileEntry("a:1\nfile:b", 2) else FileEntry("b:2\nfile:a", 1);
    var (s1, i) := GetOrCreateTree(s, [a, b], le);
    SortPair(a, b, le);
    SortOne(e, le);
    NewlineNamesCollide();
    SwappedNamesCollide();
    SameTreeIff(s, [a, b], [e], le);
    assert |e.name| > 1;
    FindTreeFinds(s1.trees, HashTree([e], le));
    FindTreeFinds(s.trees, HashTree([a, b], le));
    assert GetOrCreateTree(s1, [e], le) == (s1, i);
  }
}
