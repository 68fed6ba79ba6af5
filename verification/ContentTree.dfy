/**
 The nested working form of a content tree (services/backend/convex/content.ts, buildTreeFromChanges) and its edits.
 A directory is its JavaScript Map: an ordered list of entries with distinct names. The flat form is the map from
 paths to blobs that services/backend/convex/compile.ts edits with the same changes.
 */
module ContentTree {
  import opened Wrappers

  type Path = seq<string>
  type BlobId = nat

  datatype Node = FileNode(blob: BlobId) | DirNode(children: Children)
  datatype Children = Nil | Cons(name: string, node: Node, rest: Children)

  // ---------------------------------------------------------------- Map operations

  function Get(c: Children, name: string): Option<Node> {
    match c
    case Nil => None
    case Cons(n, node, rest) => if n == name then Some(node) else Get(rest, name)
  }

  function Put(c: Children, name: string, node: Node): Children {
    match c
    case Nil => Cons(name, node, Nil)
    case Cons(n, x, rest) => if n == name then Cons(n, node, rest) else Cons(n, x, Put(rest, name, node))
  }

  function Drop(c: Children, name: string): Children {
    match c
    case Nil => Nil
    case Cons(n, x, rest) => if n == name then rest else Cons(n, x, Drop(rest, name))
  }

  function Names(c: Children): set<string> {
    match c
    case Nil => {}
    case Cons(n, _, rest) => {n} + Names(rest)
  }

  /** Every directory has distinct entry names, at every depth. */
  predicate WellFormed(c: Children) {
    match c
    case Nil => true
    case Cons(n, node, rest) =>
      n !in Names(rest) && WellFormed(rest) && (node.DirNode? ==> WellFormed(node.children))
  }

  lemma {:induction false} GetInNames(c: Children, name: string)
    ensures Get(c, name).Some? <==> name in Names(c)
  {
    if c.Cons? { GetInNames(c.rest, name); }
  }

  lemma {:induction false} GetPut(c: Children, name: string, node: Node, m: string)
    ensures Get(Put(c, name, node), m) == if m == name then Some(node) else Get(c, m)
    ensures Names(Put(c, name, node)) == Names(c) + {name}
  {
    if c.Cons? { GetPut(c.rest, name, node, m); }
  }

  lemma {:induction false} GetDrop(c: Children, name: string, m: string)
    requires WellFormed(c)
    ensures Get(Drop(c, name), m) == if m == name then None else Get(c, m)
    ensures Names(Drop(c, name)) == Names(c) - {name}
  {
    if c.Cons? {
      GetDrop(c.rest, name, m);
      GetInNames(c.rest, m);
    }
  }

  lemma {:induction false} GetWellFormed(c: Children, name: string)
    requires WellFormed(c) && Get(c, name).Some? && Get(c, name).value.DirNode?
    ensures WellFormed(Get(c, name).value.children)
  {
    if c.name != name { GetWellFormed(c.rest, name); }
  }

  lemma {:induction false} PutWellFormed(c: Children, name: string, node: Node)
    requires WellFormed(c) && (node.DirNode? ==> WellFormed(node.children))
    ensures WellFormed(Put(c, name, node))
  {
    if c.Cons? && c.name != name {
      PutWellFormed(c.rest, name, node);
      GetPut(c.rest, name, node, name);
    }
  }

  lemma {:induction false} DropWellFormed(c: Children, name: string)
    requires WellFormed(c)
    ensures WellFormed(Drop(c, name))
  {
    if c.Cons? && c.name != name {
      DropWellFormed(c.rest, name);
      GetDrop(c.rest, name, name);
    }
  }

  // ---------------------------------------------------------------- lookup and flattening

  /** The blob of the file at `p`, if there is one. */
  function At(c: Children, p: Path): Option<BlobId>
    decreases |p|
  {
    if p == [] then None
    else match Get(c, p[0])
      case None => None
      case Some(FileNode(b)) => if |p| == 1 then Some(b) else None
      case Some(DirNode(k)) => At(k, p[1..])
  }

  /** The entry of one directory, under its name. */
  function Prefixed(name: string, files: map<Path, BlobId>): (r: map<Path, BlobId>)
    ensures forall q :: q in r <==> q != [] && q[0] == name && q[1..] in files
    ensures forall q :: q in r ==> r[q] == files[q[1..]]
  {
    var keys := set q | q in files.Keys :: [name] + q;
    assert forall q: Path | q != [] :: q == [q[0]] + q[1..];
    assert forall q: Path :: ([name] + q)[1..] == q;
    map q | q in keys :: files[q[1..]]
  }

  /** All files of a directory, by path: the form in which compile.ts holds them. */
  function Flatten(c: Children): map<Path, BlobId> {
    match c
    case Nil => map[]
    case Cons(n, FileNode(b), rest) => Flatten(rest)[[n] := b]
    case Cons(n, DirNode(k), rest) => Flatten(rest) + Prefixed(n, Flatten(k))
  }

  /** Looking a path up in the nested form is looking it up in the flat form. */
  lemma {:induction false} FlattenAt(c: Children, p: Path)
    requires WellFormed(c)
    ensures p in Flatten(c) <==> At(c, p).Some?
    ensures p in Flatten(c) ==> At(c, p) == Some(Flatten(c)[p])
  {
    match c
    case Nil =>
    case Cons(n, node, rest) =>
      FlattenAt(rest, p);
      if p != [] {
        GetInNames(rest, p[0]);
        assert p[0] == n ==> p == [n] + p[1..];
        if node.DirNode? { FlattenAt(node.children, p[1..]); }
        if p[0] == n {
          assert Get(rest, n) == None;
          assert node.FileNode? ==> (p == [n] <==> |p| == 1);
        }
      }
  }

  // ---------------------------------------------------------------- edits

  /** The subdirectory an edit descends into: what is there if it is a directory, a new one otherwise. */
  function Subdir(c: Children, name: string): Children {
    match Get(c, name)
    case Some(DirNode(k)) => k
    case _ => Nil
  }

  /** Create or update the file at `p`, creating parent directories, replacing files that stand in the way. */
  function SetFile(c: Children, p: Path, blob: BlobId): Children
    requires p != []
    decreases |p|
  {
    if |p| == 1 then Put(c, p[0], FileNode(blob))
    else Put(c, p[0], DirNode(SetFile(Subdir(c, p[0]), p[1..], blob)))
  }

  /** Delete at `p`: the descent stops at the first missing directory, and the last name is deleted where it stopped. */
  function DeleteEntry(c: Children, p: Path): Children
    requires p != []
    decreases |p|
  {
    if |p| == 1 then Drop(c, p[0])
    else match Get(c, p[0])
      case Some(DirNode(k)) => Put(c, p[0], DirNode(DeleteEntry(k, p[1..])))
      case _ => Drop(c, p[|p| - 1])
  }

  /** The path whose entry `DeleteEntry` really removes. */
  function Victim(c: Children, p: Path): (v: Path)
    requires p != []
    ensures v != []
    decreases |p|
  {
    if |p| == 1 then p
    else match Get(c, p[0])
      case Some(DirNode(k)) => [p[0]] + Victim(k, p[1..])
      case _ => [p[|p| - 1]]
  }

  lemma {:induction false} EditsWellFormed(c: Children, p: Path, blob: BlobId)
    requires WellFormed(c) && p != []
    ensures WellFormed(SetFile(c, p, blob)) && WellFormed(DeleteEntry(c, p))
    decreases |p|
  {
    if |p| == 1 {
      PutWellFormed(c, p[0], FileNode(blob));
      DropWellFormed(c, p[0]);
    } else {
      var k := Subdir(c, p[0]);
      if Get(c, p[0]).Some? && Get(c, p[0]).value.DirNode? { GetWellFormed(c, p[0]); }
      EditsWellFormed(k, p[1..], blob);
      PutWellFormed(c, p[0], DirNode(SetFile(k, p[1..], blob)));
      PutWellFormed(c, p[0], DirNode(DeleteEntry(k, p[1..])));
      DropWellFormed(c, p[|p| - 1]);
    }
  }

  /** Setting `p` puts the blob there, destroys files above and below `p`, and leaves every other path alone. */
  lemma {:induction false} AtSetFile(c: Children, p: Path, blob: BlobId, q: Path)
    requires p != []
    ensures At(SetFile(c, p, blob), q) ==
      if q == p then Some(blob) else if p <= q || q <= p then None else At(c, q)
    decreases |p|
  {
    if q == [] {
    } else {
      if |p| == 1 {
        GetPut(c, p[0], FileNode(blob), q[0]);
        assert p <= q <==> q[0] == p[0];
      } else {
        var k := Subdir(c, p[0]);
        GetPut(c, p[0], DirNode(SetFile(k, p[1..], blob)), q[0]);
        if q[0] == p[0] {
          AtSetFile(k, p[1..], blob, q[1..]);
          assert p == [p[0]] + p[1..] && q == [q[0]] + q[1..];
          assert q[1..] <= p[1..] <==> q <= p;
          assert p[1..] <= q[1..] <==> p <= q;
          assert q[1..] != [] ==> At(Nil, q[1..]) == None;
        }
      }
    }
  }

  /** Deleting removes whatever is at or below the victim, and nothing else. */
  lemma {:induction false} AtDeleteEntry(c: Children, p: Path, q: Path)
    requires WellFormed(c) && p != []
    ensures At(DeleteEntry(c, p), q) == if Victim(c, p) <= q then None else At(c, q)
    decreases |p|
  {
    if q == [] {
    } else {
      if |p| == 1 {
        GetDrop(c, p[0], q[0]);
        assert p <= q <==> q[0] == p[0];
      } else {
        var found := Get(c, p[0]);
        if found.Some? && found.value.DirNode? {
          var k := found.value.children;
          GetWellFormed(c, p[0]);
          GetPut(c, p[0], DirNode(DeleteEntry(k, p[1..])), q[0]);
          assert q == [q[0]] + q[1..];
          if q[0] == p[0] {
            AtDeleteEntry(k, p[1..], q[1..]);
            assert [p[0]] + Victim(k, p[1..]) <= q <==> Victim(k, p[1..]) <= q[1..];
          }
        } else {
          GetDrop(c, p[|p| - 1], q[0]);
          assert [p[|p| - 1]] <= q <==> q[0] == p[|p| - 1];
        }
      }
    }
  }

  /** A live path is its own victim: its parents exist. */
  lemma {:induction false} LiveVictim(c: Children, p: Path)
    requires p != [] && At(c, p).Some?
    ensures Victim(c, p) == p
    decreases |p|
  {
    if |p| > 1 {
      LiveVictim(Get(c, p[0]).value.children, p[1..]);
      assert p == [p[0]] + p[1..];
    }
  }

  // ---------------------------------------------------------------- agreement with the flat form

  /** One working change, with the blob that holds its new content unless it is a deletion or carries none. */
  datatype Change = Change(path: Path, isDeleted: bool, blob: Option<BlobId>)

  /** One turn of the change loop of buildTreeFromChanges. */
  function ApplyToTree(c: Children, change: Change): Children {
    if change.path == [] then c
    else if change.isDeleted then DeleteEntry(c, change.path)
    else if change.blob.Some? then SetFile(c, change.path, change.blob.value)
    else c
  }

  /** One turn of the change loop of enqueueRevisionCompileJob, for a change that carries content. */
  function ApplyToFlat(files: map<Path, BlobId>, change: Change): map<Path, BlobId> {
    if change.isDeleted then files - {change.path}
    else if change.blob.Some? then files[change.path := change.blob.value]
    else files
  }

  predicate CarriesContent(change: Change) {
    change.path != [] && (change.isDeleted || change.blob.Some?)
  }

  /** The entry that deleting `p` really removes holds no file but the one at `p`. */
  ghost predicate DeletionHitsOnly(c: Children, p: Path)
    requires p != []
  {
    forall q :: At(c, q).Some? && Victim(c, p) <= q ==> q == p
  }

  /** No file other than the one at `p` lies above or below `p`. */
  ghost predicate NothingInTheWay(c: Children, p: Path) {
    forall q :: At(c, q).Some? && (p <= q || q <= p) ==> q == p
  }

  /** The change means the same in both forms. */
  ghost predicate Agreeable(c: Children, change: Change) {
    change.path != [] &&
    if change.isDeleted then DeletionHitsOnly(c, change.path) else NothingInTheWay(c, change.path)
  }

  lemma FlattenIs(c: Children, files: map<Path, BlobId>)
    requires WellFormed(c)
    ensures Flatten(c) == files <==> forall q :: At(c, q) == if q in files then Some(files[q]) else None
  {
    forall q ensures q in Flatten(c) <==> At(c, q).Some?
      ensures q in Flatten(c) ==> At(c, q) == Some(Flatten(c)[q])
    {
      FlattenAt(c, q);
    }
    if forall q :: At(c, q) == if q in files then Some(files[q]) else None {
      assert Flatten(c).Keys == files.Keys;
    }
  }

  lemma FlattenAtAll(c: Children)
    requires WellFormed(c)
    ensures forall q :: q in Flatten(c) <==> At(c, q).Some?
    ensures forall q :: q in Flatten(c) ==> At(c, q) == Some(Flatten(c)[q])
  {
    forall q ensures q in Flatten(c) <==> At(c, q).Some?
      ensures q in Flatten(c) ==> At(c, q) == Some(Flatten(c)[q])
    {
      FlattenAt(c, q);
    }
  }

  lemma DeletionAgreesIff(c: Children, p: Path)
    requires WellFormed(c) && p != [] && WellFormed(DeleteEntry(c, p))
    ensures Flatten(DeleteEntry(c, p)) == Flatten(c) - {p} <==> DeletionHitsOnly(c, p)
  {
    var c', files := DeleteEntry(c, p), Flatten(c) - {p};
    FlattenIs(c', files);
    FlattenAtAll(c);
    if At(c, p).Some? { LiveVictim(c, p); }
    forall q ensures
      (At(c', q) == if q in files then Some(files[q]) else None) <==>
      (At(c, q).Some? && Victim(c, p) <= q ==> q == p)
    {
      AtDeleteEntry(c, p, q);
    }
  }

  lemma UpdateAgreesIff(c: Children, p: Path, blob: BlobId)
    requires WellFormed(c) && p != [] && WellFormed(SetFile(c, p, blob))
    ensures Flatten(SetFile(c, p, blob)) == Flatten(c)[p := blob] <==> NothingInTheWay(c, p)
  {
    var c', files := SetFile(c, p, blob), Flatten(c)[p := blob];
    FlattenIs(c', files);
    FlattenAtAll(c);
    forall q ensures
      (At(c', q) == if q in files then Some(files[q]) else None) <==>
      (At(c, q).Some? && (p <= q || q <= p) ==> q == p)
    {
      AtSetFile(c, p, blob, q);
    }
  }

  /** One change refines the flat form exactly when it is agreeable. */
  lemma ChangeAgreesIff(c: Children, change: Change)
    requires WellFormed(c) && CarriesContent(change)
    ensures Flatten(ApplyToTree(c, change)) == ApplyToFlat(Flatten(c), change) <==> Agreeable(c, change)
  {
    EditsWellFormed(c, change.path, if change.blob.Some? then change.blob.value else 0);
    if change.isDeleted { DeletionAgreesIff(c, change.path); }
    else { UpdateAgreesIff(c, change.path, change.blob.value); }
  }

  function ApplyAllToTree(c: Children, changes: seq<Change>): Children
    decreases |changes|
  {
    if changes == [] then c else ApplyAllToTree(ApplyToTree(c, changes[0]), changes[1..])
  }

  function ApplyAllToFlat(files: map<Path, BlobId>, changes: seq<Change>): map<Path, BlobId>
    decreases |changes|
  {
    if changes == [] then files else ApplyAllToFlat(ApplyToFlat(files, changes[0]), changes[1..])
  }

  ghost predicate AllAgreeable(c: Children, changes: seq<Change>)
    decreases |changes|
  {
    changes == [] ||
    (CarriesContent(changes[0]) && Agreeable(c, changes[0]) &&
     AllAgreeable(ApplyToTree(c, changes[0]), changes[1..]))
  }

  /** Editing the nested form and flattening is flattening and editing the flat form, change after change. */
  lemma {:induction false} EditsRefineFlat(c: Children, changes: seq<Change>)
    requires WellFormed(c) && AllAgreeable(c, changes)
    ensures WellFormed(ApplyAllToTree(c, changes))
    ensures Flatten(ApplyAllToTree(c, changes)) == ApplyAllToFlat(Flatten(c), changes)
    decreases |changes|
  {
    if changes == [] {
    } else {
      var change := changes[0];
      ChangeAgreesIff(c, change);
      EditsWellFormed(c, change.path, if change.blob.Some? then change.blob.value else 0);
      EditsRefineFlat(ApplyToTree(c, change), changes[1..]);
    }
  }

  // ---------------------------------------------------------------- a condition on the inputs alone

  /** What a change does, without its content. */
  datatype Target = Target(path: Path, isDeleted: bool)

  function Targets(changes: seq<Change>): seq<Target> {
    seq(|changes|, i requires 0 <= i < |changes| => Target(changes[i].path, changes[i].isDeleted))
  }

  /** `p` is the path of a base file or of a change. */
  ghost predicate Mentioned(c: Children, targets: seq<Target>, p: Path) {
    At(c, p).Some? || exists i :: 0 <= i < |targets| && targets[i].path == p
  }

  /** No mentioned path lies strictly below another. */
  ghost predicate PrefixFree(c: Children, targets: seq<Target>) {
    forall p, q :: Mentioned(c, targets, p) && Mentioned(c, targets, q) && p <= q ==> p == q
  }

  function Parent(p: Path): Path
    requires p != []
  {
    p[..|p| - 1]
  }

  /** The tree has a directory at `p`. */
  predicate HasDir(c: Children, p: Path)
    decreases |p|
  {
    p == [] || (match Get(c, p[0]) case Some(DirNode(k)) => HasDir(k, p[1..]) case _ => false)
  }

  /** The directory of each deletion is there at the start, or an earlier update creates it. */
  ghost predicate ParentsKnown(c: Children, targets: seq<Target>) {
    forall i :: 0 <= i < |targets| && targets[i].path != [] && targets[i].isDeleted ==>
      HasDir(c, Parent(targets[i].path)) || CreatedBefore(targets, i)
  }

  ghost predicate CreatedBefore(targets: seq<Target>, i: nat)
    requires i < |targets| && targets[i].path != []
  {
    exists j :: 0 <= j < i && !targets[j].isDeleted && Parent(targets[i].path) < targets[j].path
  }

  lemma {:induction false} VictimInDirectory(c: Children, p: Path)
    requires p != [] && HasDir(c, Parent(p))
    ensures Victim(c, p) == p
    decreases |p|
  {
    if |p| > 1 {
      assert Parent(p)[1..] == Parent(p[1..]);
      VictimInDirectory(Get(c, p[0]).value.children, p[1..]);
      assert p == [p[0]] + p[1..];
    }
  }

  /** Setting a file creates the directories above it and destroys none but those at or below it. */
  lemma {:induction false} SetFileDirs(c: Children, p: Path, blob: BlobId, q: Path)
    requires p != []
    ensures q < p ==> HasDir(SetFile(c, p, blob), q)
    ensures HasDir(c, q) && !(p <= q) ==> HasDir(SetFile(c, p, blob), q)
    decreases |p|
  {
    if q == [] {
    } else {
      if |p| == 1 {
        GetPut(c, p[0], FileNode(blob), q[0]);
        assert q[0] == p[0] ==> p <= q;
        assert !(q < p);
      } else {
        var k := Subdir(c, p[0]);
        GetPut(c, p[0], DirNode(SetFile(k, p[1..], blob)), q[0]);
        if q[0] == p[0] {
          SetFileDirs(k, p[1..], blob, q[1..]);
          assert p == [p[0]] + p[1..] && q == [q[0]] + q[1..];
          assert q < p ==> q[1..] < p[1..];
          assert p[1..] <= q[1..] ==> p <= q;
        }
      }
    }
  }

  /** A deletion that finds its directory destroys no directories but those at or below its path. */
  lemma {:induction false} DeleteDirs(c: Children, p: Path, q: Path)
    requires WellFormed(c) && p != [] && HasDir(c, Parent(p)) && HasDir(c, q) && !(p <= q)
    ensures HasDir(DeleteEntry(c, p), q)
    decreases |p|
  {
    if q == [] {
    } else {
      if |p| == 1 {
        GetDrop(c, p[0], q[0]);
        assert q[0] == p[0] ==> p <= q;
      } else {
        var k := Get(c, p[0]).value.children;
        GetWellFormed(c, p[0]);
        GetPut(c, p[0], DirNode(DeleteEntry(k, p[1..])), q[0]);
        if q[0] == p[0] {
          assert Parent(p)[1..] == Parent(p[1..]);
          assert p == [p[0]] + p[1..] && q == [q[0]] + q[1..];
          assert p[1..] <= q[1..] ==> p <= q;
          DeleteDirs(k, p[1..], q[1..]);
        }
      }
    }
  }

  lemma MentionedBefore(c: Children, change: Change, targets: seq<Target>, p: Path)
    requires WellFormed(c) && CarriesContent(change)
    requires targets != [] && targets[0] == Target(change.path, change.isDeleted)
    requires Mentioned(ApplyToTree(c, change), targets[1..], p)
    ensures Mentioned(c, targets, p)
  {
    if At(ApplyToTree(c, change), p).Some? {
      if change.isDeleted { AtDeleteEntry(c, change.path, p); }
      else { AtSetFile(c, change.path, change.blob.value, p); }
    } else {
      var i :| 0 <= i < |targets[1..]| && targets[1..][i].path == p;
      assert targets[i + 1].path == p;
    }
  }

  /** A later deletion still finds its directory after one change. */
  lemma ParentStaysKnown(c: Children, change: Change, targets: seq<Target>, i: nat)
    requires WellFormed(c) && CarriesContent(change) && PrefixFree(c, targets) && ParentsKnown(c, targets)
    requires targets != [] && targets[0] == Target(change.path, change.isDeleted)
    requires i < |targets| - 1 && targets[i + 1].path != [] && targets[i + 1].isDeleted
    ensures HasDir(ApplyToTree(c, change), Parent(targets[i + 1].path)) || CreatedBefore(targets[1..], i)
  {
    var p, q := targets[i + 1].path, change.path;
    assert Mentioned(c, targets, p) && Mentioned(c, targets, targets[0].path);
    assert q <= Parent(p) ==> q <= p && q != p;
    if HasDir(c, Parent(p)) {
      if change.isDeleted {
        DeleteDirs(c, q, Parent(p));
      } else {
        SetFileDirs(c, q, change.blob.value, Parent(p));
      }
    } else {
      var j :| 0 <= j < i + 1 && !targets[j].isDeleted && Parent(p) < targets[j].path;
      if j == 0 {
        SetFileDirs(c, q, change.blob.value, Parent(p));
      } else {
        assert targets[1..][j - 1] == targets[j];
      }
    }
  }

  /** The first change is agreeable, and the condition on the inputs holds for the rest. */
  lemma OneChangeAgrees(c: Children, change: Change, targets: seq<Target>)
    requires WellFormed(c) && CarriesContent(change) && PrefixFree(c, targets) && ParentsKnown(c, targets)
    requires targets != [] && targets[0] == Target(change.path, change.isDeleted)
    ensures Agreeable(c, change)
    ensures var c' := ApplyToTree(c, change); PrefixFree(c', targets[1..]) && ParentsKnown(c', targets[1..])
  {
    var c' := ApplyToTree(c, change);
    assert Mentioned(c, targets, targets[0].path);
    assert forall q :: At(c, q).Some? ==> Mentioned(c, targets, q);
    if change.isDeleted { VictimInDirectory(c, change.path); }
    forall p | Mentioned(c', targets[1..], p) ensures Mentioned(c, targets, p) {
      MentionedBefore(c, change, targets, p);
    }
    forall i | 0 <= i < |targets[1..]| && targets[1..][i].path != [] && targets[1..][i].isDeleted
      ensures HasDir(c', Parent(targets[1..][i].path)) || CreatedBefore(targets[1..], i)
    {
      ParentStaysKnown(c, change, targets, i);
    }
  }

  /**
   When no path among the base files and the changes lies below another, every change carries content, and the directory
   of each deletion is in the base or above an earlier update, the tree built from the changes flattens to the flat map
   edited by them.
   */
  lemma {:induction false} PrefixFreeChangesRefineFlat(c: Children, changes: seq<Change>)
    requires WellFormed(c) && PrefixFree(c, Targets(changes)) && ParentsKnown(c, Targets(changes))
    requires forall i :: 0 <= i < |changes| ==> CarriesContent(changes[i])
    ensures AllAgreeable(c, changes)
    ensures Flatten(ApplyAllToTree(c, changes)) == ApplyAllToFlat(Flatten(c), changes)
    decreases |changes|
  {
    if changes == [] {
    } else {
      var change, rest := changes[0], changes[1..];
      EditsWellFormed(c, change.path, if change.blob.Some? then change.blob.value else 0);
      OneChangeAgrees(c, change, Targets(changes));
      assert Targets(changes)[1..] == Targets(rest);
      PrefixFreeChangesRefineFlat(ApplyToTree(c, change), rest);
    }
    EditsRefineFlat(c, changes);
  }

  /** Without its parent directories, deleting "a/x" removes the unrelated top-level entry "x". */
  lemma OrphanDeleteHitsAnother(blob: BlobId)
    ensures var c := Cons("x", FileNode(blob), Nil);
      var change := Change(["a", "x"], true, None);
      && Flatten(c) == map[["x"] := blob] && ApplyToFlat(Flatten(c), change) == Flatten(c)
      && Flatten(ApplyToTree(c, change)) == map[]
  {
    var c := Cons("x", FileNode(blob), Nil);
    assert Flatten(c) == map[["x"] := blob];
    assert Get(c, "a") == None;
    assert DeleteEntry(c, ["a", "x"]) == Drop(c, "x") == Nil;
  }
}
