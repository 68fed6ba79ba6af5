/**
 buildTreeFromChanges end to end: load the base tree, apply the changes, save bottom-up. The resulting tree holds the
 files that compile.ts computes on its flat map of contents. The class keeps the tables as fields, as the database
 does, and its methods are the source's loops.
 */
module ContentBuild {
  import opened Wrappers
  import opened TreePrint
  import opened Sorting
  import opened ContentTree
  import opened ContentArena
  import opened ContentStore
  import opened ContentMerkle

  /** A change as it arrives: content as text, or a blob already stored, or a deletion. */
  datatype RawChange = RawChange(
    path: Path,
    content: Option<string>,
    blobId: Option<nat>,
    binary: bool,
    isDeleted: bool)

  /** The blob of a change, created if need be, before its path is edited. */
  function Resolve(s: Store, raw: RawChange): (Store, Change) {
    if raw.path == [] || raw.isDeleted then (s, Change(raw.path, raw.isDeleted, None))
    else if raw.blobId.Some? then (s, Change(raw.path, false, raw.blobId))
    else if raw.content.Some? then
      var (s', id) := GetOrCreateBlob(s, raw.content.value, raw.binary);
      (s', Change(raw.path, false, Some(id)))
    else (s, Change(raw.path, false, None))
  }

  function ApplyRaw(s: Store, c: Children, raws: seq<RawChange>): (Store, Children)
    decreases |raws|
  {
    if raws == [] then (s, c)
    else
      var (s', change) := Resolve(s, raws[0]);
      ApplyRaw(s', ApplyToTree(c, change), raws[1..])
  }

  function Base(s: Store, baseTreeId: Option<nat>): Children
    requires Sound(s)
  {
    if baseTreeId.Some? then LoadTree(s, baseTreeId.value) else Nil
  }

  function Build(s: Store, baseTreeId: Option<nat>, raws: seq<RawChange>, le: NameOrder): (Store, nat)
    requires Sound(s)
  {
    var (s', c) := ApplyRaw(s, Base(s, baseTreeId), raws);
    SaveTree(s', c, le)
  }

  // ---------------------------------------------------------------- the flat form over contents

  /** What a blob holds: a text, and whether it stands for the bytes it encodes in base64 or for those of its UTF-8. */
  datatype Stored = Stored(text: string, binary: bool)

  function RecordAt(s: Store, id: BlobId): Stored
    requires id < |s.blobs|
  {
    Stored(s.blobs[id].content, s.blobs[id].binary)
  }

  /** The files of a tree with what is stored for them. */
  function StoredFiles(s: Store, files: map<Path, BlobId>): map<Path, Stored> {
    map p | p in files && files[p] < |s.blobs| :: RecordAt(s, files[p])
  }

  /** The files with their texts alone. */
  function TextsOf(files: map<Path, Stored>): map<Path, string> {
    map p | p in files :: files[p].text
  }

  /** What a change asks for: its text and flag, or what the blob it names holds. */
  function StoredOf(s: Store, raw: RawChange): Stored {
    if raw.content.Some? then Stored(raw.content.value, raw.binary)
    else if raw.blobId.Some? && raw.blobId.value < |s.blobs| then RecordAt(s, raw.blobId.value)
    else Stored("", false)
  }

  function TextOf(s: Store, raw: RawChange): string {
    StoredOf(s, raw).text
  }

  function ApplyStored(s: Store, files: map<Path, Stored>, raws: seq<RawChange>): map<Path, Stored>
    decreases |raws|
  {
    if raws == [] then files
    else
      var raw := raws[0];
      ApplyStored(s, if raw.isDeleted then files - {raw.path} else files[raw.path := StoredOf(s, raw)], raws[1..])
  }

  function ApplyText(s: Store, files: map<Path, string>, raw: RawChange): map<Path, string> {
    if raw.isDeleted then files - {raw.path} else files[raw.path := TextOf(s, raw)]
  }

  function ApplyTexts(s: Store, files: map<Path, string>, raws: seq<RawChange>): map<Path, string>
    decreases |raws|
  {
    if raws == [] then files else ApplyTexts(s, ApplyText(s, files, raws[0]), raws[1..])
  }

  predicate HasContent(raw: RawChange) {
    raw.isDeleted || raw.content.Some? || raw.blobId.Some?
  }

  /** The loop of enqueueRevisionCompileJob, which stops with an error at the first change without content. */
  method OverlayWorkingChanges(s: Store, files: map<Path, string>, raws: seq<RawChange>)
    returns (result: Result<map<Path, string>, Path>)
    ensures result.Ok? <==> forall i :: 0 <= i < |raws| ==> HasContent(raws[i])
    ensures result.Ok? ==> result.value == ApplyTexts(s, files, raws)
    ensures result.Err? ==>
      exists i :: 0 <= i < |raws| && !HasContent(raws[i]) && result.error == raws[i].path
               && forall j :: 0 <= j < i ==> HasContent(raws[j])
  {
    var fileMap := files;
    for i := 0 to |raws|
      invariant forall j :: 0 <= j < i ==> HasContent(raws[j])
      invariant ApplyTexts(s, files, raws) == ApplyTexts(s, fileMap, raws[i..])
    {
      var raw := raws[i];
      assert raws[i..][0] == raw && raws[i..][1..] == raws[i + 1..];
      if raw.isDeleted {
        fileMap := fileMap - {raw.path};
      } else if raw.content.Some? {
        fileMap := fileMap[raw.path := raw.content.value];
      } else if raw.blobId.Some? {
        fileMap := fileMap[raw.path := TextOf(s, raw)];
      } else {
        return Err(raw.path);
      }
    }
    return Ok(fileMap);
  }

  /** A usable change: a path of safe names, and content; when it has both a text and a blob, they agree. */
  predicate Usable(s: Store, raw: RawChange) {
    && raw.path != [] && (forall n :: n in raw.path ==> NameSafe(n))
    && HasContent(raw)
    && (raw.blobId.Some? ==> raw.blobId.value < |s.blobs|)
    && (raw.blobId.Some? && raw.content.Some? ==> s.blobs[raw.blobId.value].content == raw.content.value)
  }

  /** A change whose blob is found or created by its text. */
  predicate ByText(raw: RawChange) {
    !raw.isDeleted && raw.content.Some? && raw.blobId.None?
  }

  /** No stored blob of the change's text has the other flag. */
  predicate FlagAgrees(s: Store, raw: RawChange) {
    && (ByText(raw) ==> forall b :: b in s.blobs && b.content == raw.content.value ==> b.binary == raw.binary)
    && (!raw.isDeleted && raw.content.Some? && raw.blobId.Some? && raw.blobId.value < |s.blobs| ==>
          s.blobs[raw.blobId.value].binary == raw.binary)
  }

  predicate SameTextSameFlag(a: RawChange, b: RawChange) {
    ByText(a) && ByText(b) && a.content == b.content ==> a.binary == b.binary
  }

  /** Nor do two changes with one text ask for different flags. */
  ghost predicate FlagsAgree(s: Store, raws: seq<RawChange>) {
    && (forall i :: 0 <= i < |raws| ==> FlagAgrees(s, raws[i]))
    && (forall i, j :: 0 <= i < j < |raws| ==> SameTextSameFlag(raws[i], raws[j]))
  }

  /** Each change, at its turn, means the same in the nested and in the flat form. */
  ghost predicate RawAgreeable(s: Store, c: Children, raws: seq<RawChange>)
    decreases |raws|
  {
    raws == [] ||
    (var (s', change) := Resolve(s, raws[0]);
     Agreeable(c, change) && RawAgreeable(s', ApplyToTree(c, change), raws[1..]))
  }

  /** A change resolves to a blob of its text, whose flag is right exactly when the stored flags agree with it. */
  lemma ResolveKeeps(s: Store, raw: RawChange, le: NameOrder)
    requires Valid(s, le) && Usable(s, raw)
    ensures var (s', change) := Resolve(s, raw);
      && Valid(s', le) && Extends(s, s') && CarriesContent(change)
      && change.path == raw.path && change.isDeleted == raw.isDeleted
      && (!raw.isDeleted ==>
            && change.blob.value < |s'.blobs|
            && s'.blobs[change.blob.value].content == TextOf(s, raw)
            && (RecordAt(s', change.blob.value) == StoredOf(s, raw) <==> FlagAgrees(s, raw)))
  {
    if raw.content.Some? {
      BlobCreated(s, raw.content.value, raw.binary, le);
      BinaryFlagIff(s, raw.content.value, raw.binary, le);
    }
  }

  /** A change that has no name, or neither deletes nor carries anything. */
  predicate Idle(raw: RawChange) {
    raw.path == [] || (!raw.isDeleted && raw.content == None && raw.blobId == None)
  }

  function Effective(raws: seq<RawChange>): seq<RawChange> {
    if raws == [] then []
    else if Idle(raws[0]) then Effective(raws[1..])
    else [raws[0]] + Effective(raws[1..])
  }

  /** Such changes are skipped: the result is that of the others alone. */
  lemma {:induction false} IdleSkipped(s: Store, c: Children, raws: seq<RawChange>)
    ensures ApplyRaw(s, c, raws) == ApplyRaw(s, c, Effective(raws))
    decreases |raws|
  {
    if raws == [] {
    } else {
      var (s', change) := Resolve(s, raws[0]);
      IdleSkipped(s', ApplyToTree(c, change), raws[1..]);
      if !Idle(raws[0]) { assert Effective(raws)[1..] == Effective(raws[1..]); }
    }
  }

  lemma SetThere(c: Children, p: Path, blob: BlobId)
    requires p != []
    ensures At(SetFile(c, p, blob), p) == Some(blob)
  {
    AtSetFile(c, p, blob, p);
  }

  /** Of a change that has both a text and a blob, the tree takes the blob and the flat map the text. */
  lemma TextAndBlob(s: Store, c: Children, files: map<Path, string>, raw: RawChange)
    requires raw.path != [] && !raw.isDeleted && raw.content.Some? && raw.blobId.Some?
    ensures At(ApplyRaw(s, c, [raw]).1, raw.path) == raw.blobId
    ensures ApplyTexts(s, files, [raw]) == files[raw.path := raw.content.value]
  {
    SetThere(c, raw.path, raw.blobId.value);
    assert [raw][1..] == [];
    assert ApplyRaw(s, ApplyToTree(c, Resolve(s, raw).1), []) == (s, ApplyToTree(c, Resolve(s, raw).1));
    assert ApplyTexts(s, ApplyText(s, files, raw), []) == ApplyText(s, files, raw);
  }

  // ---------------------------------------------------------------- edits keep trees saveable

  lemma {:induction false} PutSaveable(c: Children, name: string, node: Node, blobs: nat)
    requires Saveable(c, blobs) && NameSafe(name)
    requires match node case FileNode(b) => b < blobs case DirNode(k) => Saveable(k, blobs)
    ensures Saveable(Put(c, name, node), blobs)
  {
    if c.Cons? && c.name != name { PutSaveable(c.rest, name, node, blobs); }
  }

  lemma {:induction false} DropSaveable(c: Children, name: string, blobs: nat)
    requires Saveable(c, blobs)
    ensures Saveable(Drop(c, name), blobs)
  {
    if c.Cons? && c.name != name { DropSaveable(c.rest, name, blobs); }
  }

  lemma {:induction false} GetSaveable(c: Children, name: string, blobs: nat)
    requires Saveable(c, blobs)
    ensures Saveable(Subdir(c, name), blobs)
  {
    if c.Cons? && c.name != name {
      GetSaveable(c.rest, name, blobs);
      assert Subdir(c, name) == Subdir(c.rest, name);
    }
  }

  lemma {:induction false} EditsSaveable(c: Children, p: Path, blob: BlobId, blobs: nat)
    requires Saveable(c, blobs) && p != [] && forall n :: n in p ==> NameSafe(n)
    ensures blob < blobs ==> Saveable(SetFile(c, p, blob), blobs)
    ensures Saveable(DeleteEntry(c, p), blobs)
    decreases |p|
  {
    assert p[0] in p;
    if |p| == 1 {
      if blob < blobs { PutSaveable(c, p[0], FileNode(blob), blobs); }
      DropSaveable(c, p[0], blobs);
    } else {
      var k := Subdir(c, p[0]);
      GetSaveable(c, p[0], blobs);
      EditsSaveable(k, p[1..], blob, blobs);
      if blob < blobs { PutSaveable(c, p[0], DirNode(SetFile(k, p[1..], blob)), blobs); }
      PutSaveable(c, p[0], DirNode(DeleteEntry(k, p[1..])), blobs);
      DropSaveable(c, p[|p| - 1], blobs);
    }
  }

  lemma {:induction false} SaveableGrows(c: Children, m: nat, n: nat)
    requires Saveable(c, m) && m <= n
    ensures Saveable(c, n)
  {
    match c
    case Nil =>
    case Cons(_, node, rest) =>
      SaveableGrows(rest, m, n);
      if node.DirNode? { SaveableGrows(node.children, m, n); }
  }

  lemma {:induction false} SaveableAt(c: Children, blobs: nat, p: Path)
    requires Saveable(c, blobs) && At(c, p).Some?
    ensures At(c, p).value < blobs
  {
    match c
    case Nil =>
    case Cons(n, node, rest) =>
      if n == p[0] {
        if node.DirNode? { SaveableAt(node.children, blobs, p[1..]); }
      } else {
        assert At(c, p) == At(rest, p);
        SaveableAt(rest, blobs, p);
      }
  }

  // ---------------------------------------------------------------- the whole build

  ghost predicate Good(s: Store, c: Children, le: NameOrder) {
    Valid(s, le) && WellFormed(c) && Saveable(c, |s.blobs|)
  }

  lemma OneChangeKeepsGood(s: Store, c: Children, raw: RawChange, le: NameOrder)
    requires Good(s, c, le) && Usable(s, raw)
    ensures var (s', change) := Resolve(s, raw);
      Good(s', ApplyToTree(c, change), le) && Extends(s, s')
  {
    ResolveKeeps(s, raw, le);
    var (s', change) := Resolve(s, raw);
    var blob := if change.blob.Some? then change.blob.value else 0;
    SaveableGrows(c, |s.blobs|, |s'.blobs|);
    EditsWellFormed(c, raw.path, blob);
    EditsSaveable(c, raw.path, blob, |s'.blobs|);
  }

  /** What is stored for the same files does not change when the store grows. */
  lemma StoredFilesStable(s: Store, s': Store, c: Children)
    requires Extends(s, s') && WellFormed(c) && Saveable(c, |s.blobs|)
    ensures StoredFiles(s', Flatten(c)) == StoredFiles(s, Flatten(c))
    ensures StoredFiles(s, Flatten(c)).Keys == Flatten(c).Keys
  {
    FlattenAtAll(c);
    forall p | p in Flatten(c) ensures Flatten(c)[p] < |s.blobs| {
      SaveableAt(c, |s.blobs|, p);
    }
  }

  /** One change of the flat map, with what is stored for the change in the end. */
  function ApplyResolved(s: Store, files: map<Path, Stored>, change: Change): map<Path, Stored>
    requires CarriesContent(change) && (!change.isDeleted ==> change.blob.value < |s.blobs|)
  {
    if change.isDeleted then files - {change.path} else files[change.path := RecordAt(s, change.blob.value)]
  }

  lemma FlatStored(s: Store, files: map<Path, BlobId>, change: Change)
    requires CarriesContent(change) && (!change.isDeleted ==> change.blob.value < |s.blobs|)
    ensures StoredFiles(s, ApplyToFlat(files, change)) == ApplyResolved(s, StoredFiles(s, files), change)
  {
  }

  lemma OneChangeStored(s: Store, c: Children, raw: RawChange, le: NameOrder)
    requires Good(s, c, le) && Usable(s, raw) && Agreeable(c, Resolve(s, raw).1)
    ensures ResolvedFits(s, raw)
    ensures var (s', change) := Resolve(s, raw);
      StoredFiles(s', Flatten(ApplyToTree(c, change))) == ApplyResolved(s', StoredFiles(s, Flatten(c)), change)
  {
    ResolveKeeps(s, raw, le);
    var (s', change) := Resolve(s, raw);
    ChangeAgreesIff(c, change);
    StoredFilesStable(s, s', c);
    FlatStored(s', Flatten(c), change);
  }

  predicate ResolvedFits(s: Store, raw: RawChange) {
    var (s', change) := Resolve(s, raw);
    CarriesContent(change) && (!change.isDeleted ==> change.blob.value < |s'.blobs|)
  }

  /** One resolved change acts on the texts of the nested form as it does on the flat map of texts. */
  lemma OneChangeText(s: Store, c: Children, raw: RawChange, le: NameOrder)
    requires Good(s, c, le) && Usable(s, raw) && Agreeable(c, Resolve(s, raw).1)
    ensures var (s', change) := Resolve(s, raw);
      TextsOf(StoredFiles(s', Flatten(ApplyToTree(c, change)))) ==
      ApplyText(s, TextsOf(StoredFiles(s, Flatten(c))), raw)
  {
    OneChangeStored(s, c, raw, le);
    ResolveKeeps(s, raw, le);
  }

  lemma UsableStable(s: Store, s': Store, raws: seq<RawChange>)
    requires Extends(s, s') && forall i :: 0 <= i < |raws| ==> Usable(s, raws[i])
    ensures forall i :: 0 <= i < |raws| ==> Usable(s', raws[i]) && StoredOf(s', raws[i]) == StoredOf(s, raws[i])
  {
  }

  lemma {:induction false} ApplyTextsStable(s: Store, s': Store, files: map<Path, string>, raws: seq<RawChange>)
    requires forall i :: 0 <= i < |raws| ==> StoredOf(s', raws[i]) == StoredOf(s, raws[i])
    ensures ApplyTexts(s', files, raws) == ApplyTexts(s, files, raws)
    decreases |raws|
  {
    if raws == [] {
    } else {
      ApplyTextsStable(s, s', ApplyText(s, files, raws[0]), raws[1..]);
    }
  }

  lemma {:induction false} ApplyStoredStable(s: Store, s': Store, files: map<Path, Stored>, raws: seq<RawChange>)
    requires forall i :: 0 <= i < |raws| ==> StoredOf(s', raws[i]) == StoredOf(s, raws[i])
    ensures ApplyStored(s', files, raws) == ApplyStored(s, files, raws)
    decreases |raws|
  {
    if raws == [] {
    } else {
      var raw := raws[0];
      ApplyStoredStable(s, s',
        if raw.isDeleted then files - {raw.path} else files[raw.path := StoredOf(s, raw)], raws[1..]);
    }
  }

  lemma {:induction false} ChangesKeepGood(s: Store, c: Children, raws: seq<RawChange>, le: NameOrder)
    requires Good(s, c, le) && forall i :: 0 <= i < |raws| ==> Usable(s, raws[i])
    ensures var (s', c') := ApplyRaw(s, c, raws); Good(s', c', le) && Extends(s, s')
    decreases |raws|
  {
    if raws == [] {
    } else {
      var (s1, change) := Resolve(s, raws[0]);
      OneChangeKeepsGood(s, c, raws[0], le);
      UsableStable(s, s1, raws[1..]);
      ChangesKeepGood(s1, ApplyToTree(c, change), raws[1..], le);
    }
  }

  lemma {:induction false} ChangesRefineTexts(s: Store, c: Children, raws: seq<RawChange>, le: NameOrder)
    requires Good(s, c, le) && RawAgreeable(s, c, raws)
    requires forall i :: 0 <= i < |raws| ==> Usable(s, raws[i])
    ensures var (s', c') := ApplyRaw(s, c, raws);
      TextsOf(StoredFiles(s', Flatten(c'))) == ApplyTexts(s, TextsOf(StoredFiles(s, Flatten(c))), raws)
    decreases |raws|
  {
    if raws == [] {
    } else {
      var raw, rest := raws[0], raws[1..];
      var (s1, change) := Resolve(s, raw);
      var c1 := ApplyToTree(c, change);
      OneChangeKeepsGood(s, c, raw, le);
      OneChangeText(s, c, raw, le);
      UsableStable(s, s1, rest);
      ChangesRefineTexts(s1, c1, rest, le);
      ApplyTextsStable(s, s1, TextsOf(StoredFiles(s1, Flatten(c1))), rest);
    }
  }

  /** After one change whose flags agree, those of the rest still do. */
  lemma FlagsStillAgree(s: Store, raws: seq<RawChange>, le: NameOrder)
    requires Valid(s, le) && raws != [] && FlagsAgree(s, raws)
    requires forall i :: 0 <= i < |raws| ==> Usable(s, raws[i])
    ensures FlagsAgree(Resolve(s, raws[0]).0, raws[1..])
  {
    var raw, rest, s1 := raws[0], raws[1..], Resolve(s, raws[0]).0;
    ResolveKeeps(s, raw, le);
    forall i | 0 <= i < |rest| ensures FlagAgrees(s1, rest[i]) {
      assert rest[i] == raws[i + 1] && Usable(s, raws[i + 1]) && SameTextSameFlag(raw, raws[i + 1]);
      forall b | ByText(rest[i]) && b in s1.blobs && b.content == rest[i].content.value
        ensures b.binary == rest[i].binary
      {
        NewBlob(s, raw, b);
      }
    }
  }

  lemma NewBlob(s: Store, raw: RawChange, b: BlobRecord)
    requires b in Resolve(s, raw).0.blobs
    ensures b in s.blobs || (ByText(raw) && b.content == raw.content.value && b.binary == raw.binary)
  {
  }

  lemma {:induction false} ChangesRefineStored(s: Store, c: Children, raws: seq<RawChange>, le: NameOrder)
    requires Good(s, c, le) && RawAgreeable(s, c, raws) && FlagsAgree(s, raws)
    requires forall i :: 0 <= i < |raws| ==> Usable(s, raws[i])
    ensures var (s', c') := ApplyRaw(s, c, raws);
      StoredFiles(s', Flatten(c')) == ApplyStored(s, StoredFiles(s, Flatten(c)), raws)
    decreases |raws|
  {
    if raws == [] {
    } else {
      var raw, rest := raws[0], raws[1..];
      var (s1, change) := Resolve(s, raw);
      var c1 := ApplyToTree(c, change);
      OneChangeKeepsGood(s, c, raw, le);
      OneChangeStored(s, c, raw, le);
      ResolveKeeps(s, raw, le);
      FlagsStillAgree(s, raws, le);
      UsableStable(s, s1, rest);
      ChangesRefineStored(s1, c1, rest, le);
      ApplyStoredStable(s, s1, StoredFiles(s1, Flatten(c1)), rest);
    }
  }

  function RawTargets(raws: seq<RawChange>): seq<Target> {
    seq(|raws|, i requires 0 <= i < |raws| => Target(raws[i].path, raws[i].isDeleted))
  }

  /** The condition on the inputs makes each change agreeable at its turn. */
  lemma {:induction false} PrefixFreeIsAgreeable(s: Store, c: Children, raws: seq<RawChange>, le: NameOrder)
    requires Good(s, c, le) && PrefixFree(c, RawTargets(raws)) && ParentsKnown(c, RawTargets(raws))
    requires forall i :: 0 <= i < |raws| ==> Usable(s, raws[i])
    ensures RawAgreeable(s, c, raws)
    decreases |raws|
  {
    if raws == [] {
    } else {
      var (s1, change) := Resolve(s, raws[0]);
      ResolveKeeps(s, raws[0], le);
      OneChangeKeepsGood(s, c, raws[0], le);
      OneChangeAgrees(c, change, RawTargets(raws));
      assert RawTargets(raws)[1..] == RawTargets(raws[1..]);
      UsableStable(s, s1, raws[1..]);
      PrefixFreeIsAgreeable(s1, ApplyToTree(c, change), raws[1..], le);
    }
  }

  /** What is saved is what the changes made of the loaded base. */
  lemma BuildSaves(s: Store, baseTreeId: Option<nat>, raws: seq<RawChange>, le: NameOrder)
    requires Valid(s, le) && TotalPreorder(le)
    requires forall i :: 0 <= i < |raws| ==> Usable(s, raws[i])
    ensures Good(s, Base(s, baseTreeId), le)
    ensures var (s', id) := Build(s, baseTreeId, raws, le);
      && Valid(s', le) && Extends(s, s') && id < |s'.trees|
      && (var (s1, c) := ApplyRaw(s, Base(s, baseTreeId), raws);
          StoredFiles(s', Flatten(LoadTree(s', id))) == StoredFiles(s1, Flatten(c)))
  {
    var base := Base(s, baseTreeId);
    if baseTreeId.Some? { LoadedTreeIsGood(s, baseTreeId.value); }
    ChangesKeepGood(s, base, raws, le);
    var (s1, c) := ApplyRaw(s, base, raws);
    SaveTreeKeeps(s1, c, le);
    var (s2, id) := SaveTree(s1, c, le);
    LoadedTreeIsGood(s2, id);
    SameFiles(LoadTree(s2, id), c);
    StoredFilesStable(s1, s2, c);
  }

  /** Without changes the tree is the base tree itself, or the empty tree when there is no base. */
  lemma BuildOfNothing(s: Store, baseTreeId: Option<nat>, le: NameOrder)
    requires Valid(s, le) && TotalPreorder(le)
    ensures Build(s, baseTreeId, [], le) ==
      if baseTreeId.Some? && baseTreeId.value < |s.trees| then (s, baseTreeId.value) else CreateEmptyTree(s)
  {
    if baseTreeId.Some? && baseTreeId.value < |s.trees| {
      SaveOfLoadIsIdentity(s, baseTreeId.value, le);
    } else {
      EmptyTreeIsATree(s, le);
    }
  }

  /**
   No path among the base files and the changes lies below another, and the directory of each deletion is in the base or
   above an earlier update.
   */
  ghost predicate Separate(s: Store, baseTreeId: Option<nat>, raws: seq<RawChange>)
    requires Sound(s)
  {
    PrefixFree(Base(s, baseTreeId), RawTargets(raws)) && ParentsKnown(Base(s, baseTreeId), RawTargets(raws))
  }

  /**
   The tree that buildTreeFromChanges returns, loaded again and flattened, holds exactly the texts that the same changes
   produce on the flattened base; the store it leaves is valid.
   */
  lemma BuildRefinesTexts(s: Store, baseTreeId: Option<nat>, raws: seq<RawChange>, le: NameOrder)
    requires Valid(s, le) && TotalPreorder(le) && Separate(s, baseTreeId, raws)
    requires forall i :: 0 <= i < |raws| ==> Usable(s, raws[i])
    ensures var (s', id) := Build(s, baseTreeId, raws, le);
      && Valid(s', le) && Extends(s, s') && id < |s'.trees|
      && TextsOf(StoredFiles(s', Flatten(LoadTree(s', id)))) ==
         ApplyTexts(s, TextsOf(StoredFiles(s, Flatten(Base(s, baseTreeId)))), raws)
  {
    BuildSaves(s, baseTreeId, raws, le);
    PrefixFreeIsAgreeable(s, Base(s, baseTreeId), raws, le);
    ChangesRefineTexts(s, Base(s, baseTreeId), raws, le);
  }

  /** When the flags agree too, it holds exactly what the changes ask to store, text and flag. */
  lemma BuildRefinesFlat(s: Store, baseTreeId: Option<nat>, raws: seq<RawChange>, le: NameOrder)
    requires Valid(s, le) && TotalPreorder(le) && Separate(s, baseTreeId, raws) && FlagsAgree(s, raws)
    requires forall i :: 0 <= i < |raws| ==> Usable(s, raws[i])
    ensures var (s', id) := Build(s, baseTreeId, raws, le);
      && Valid(s', le) && Extends(s, s') && id < |s'.trees|
      && StoredFiles(s', Flatten(LoadTree(s', id))) ==
         ApplyStored(s, StoredFiles(s, Flatten(Base(s, baseTreeId))), raws)
  {
    BuildSaves(s, baseTreeId, raws, le);
    PrefixFreeIsAgreeable(s, Base(s, baseTreeId), raws, le);
    ChangesRefineStored(s, Base(s, baseTreeId), raws, le);
  }

  /** Trees in which every path leads to the same blob flatten alike. */
  lemma SameFiles(a: Children, b: Children)
    requires WellFormed(a) && WellFormed(b) && forall p :: At(a, p) == At(b, p)
    ensures Flatten(a) == Flatten(b)
  {
    FlattenAtAll(b);
    FlattenIs(a, Flatten(b));
  }

  // ---------------------------------------------------------------- the tables as the database keeps them

  lemma {:induction false} PutAppends(s: Store, entries: seq<Entry>, e: Entry, bound: nat)
    requires Sound(s) && DistinctNames(entries + [e])
    requires forall f :: f in entries + [e] && f.DirEntry? ==> f.treeId < bound
    ensures forall f :: f in entries && f.DirEntry? ==> f.treeId < bound
    ensures LoadEntries(s, entries + [e], bound) == Put(LoadEntries(s, entries, bound), e.name, LoadNode(s, e))
    decreases |entries|
  {
    var all := entries + [e];
    forall f | f in entries ensures f in all {}
    if entries != [] {
      assert all[0] == entries[0] && all[1..] == entries[1..] + [e];
      HeadNotInTail(all);
      assert entries[0].name != e.name by { assert all[|all| - 1] == e; }
      PutAppends(s, entries[1..], e, bound);
    } else {
      assert all == [e] && all[1..] == [];
    }
  }

  class ContentBackend {
    const le: NameOrder
    var blobs: seq<BlobRecord>
    var trees: seq<TreeRecord>

    ghost function S(): Store
      reads this
    {
      Store(blobs, trees)
    }

    constructor (le: NameOrder)
      ensures S() == Store([], []) && this.le == le
    {
      this.le := le;
      blobs, trees := [], [];
    }

    method GetOrCreateBlobId(content: string, binary: bool) returns (id: nat)
      modifies this
      ensures (S(), id) == GetOrCreateBlob(old(S()), content, binary)
    {
      var hash := Sha256(content);
      var existing := FindBlob(blobs, hash);
      if existing.Some? { return existing.value; }
      id := |blobs|;
      blobs := blobs + [BlobRecord(hash, content, binary)];
    }

    method GetOrCreateTreeId(entries: seq<Entry>) returns (id: nat)
      modifies this
      ensures (S(), id) == GetOrCreateTree(old(S()), entries, le)
    {
      var hash := HashTree(entries, le);
      var existing := FindTree(trees, hash);
      if existing.Some? { return existing.value; }
      id := |trees|;
      trees := trees + [TreeRecord(hash, Sort(entries, ByName(le)))];
    }

    method CreateEmptyTreeId() returns (id: nat)
      modifies this
      ensures (S(), id) == CreateEmptyTree(old(S())) == GetOrCreateTree(old(S()), [], le)
    {
      EmptyTreeIsATree(S(), le);
      var existing := FindTree(trees, Sha256(""));
      if existing.Some? { return existing.value; }
      id := |trees|;
      trees := trees + [TreeRecord(Sha256(""), [])];
    }

    /** Load the tree into a new directory of the working tree. */
    method Load(w: WorkingTree, id: nat) returns (ref: nat)
      requires Sound(S()) && Tidy(w.heap)
      modifies w
      ensures Tidy(w.heap) && ref == |old(w.heap)| < |w.heap|
      ensures forall o :: 0 <= o < |old(w.heap)| ==> w.heap[o] == old(w.heap)[o]
      ensures Unreferenced(w.heap, ref) && Tree(w.heap, ref) == LoadTree(S(), id)
      decreases id
    {
      ref := w.NewDirectory();
      if id >= |trees| { return; }
      var entries := trees[id].entries;
      for i := 0 to |entries|
        invariant Tidy(w.heap) && ref == |old(w.heap)| < |w.heap| && Unreferenced(w.heap, ref)
        invariant forall o :: 0 <= o < ref ==> w.heap[o] == old(w.heap)[o]
        invariant forall e :: e in entries[..i] && e.DirEntry? ==> e.treeId < id
        invariant Tree(w.heap, ref) == LoadEntries(S(), entries[..i], id)
      {
        assert entries[..i + 1] == entries[..i] + [entries[i]];
        forall e | e in entries[..i] + [entries[i]] ensures e in entries {}
        PutAppends(S(), entries[..i], entries[i], id);
        LoadEntry(w, ref, entries[i], id);
      }
      assert entries[..|entries|] == entries;
    }

    /** One entry of the stored tree becomes one item of the directory. */
    method LoadEntry(w: WorkingTree, ref: nat, entry: Entry, id: nat)
      requires Sound(S()) && Tidy(w.heap) && ref < |w.heap| && Unreferenced(w.heap, ref)
      requires entry.DirEntry? ==> entry.treeId < id
      modifies w
      ensures Tidy(w.heap) && |old(w.heap)| <= |w.heap| && Unreferenced(w.heap, ref)
      ensures forall o :: 0 <= o < |old(w.heap)| && o != ref ==> w.heap[o] == old(w.heap)[o]
      ensures Tree(w.heap, ref) == Put(old(Tree(w.heap, ref)), entry.name, LoadNode(S(), entry))
      decreases id, 0
    {
      match entry {
        case FileEntry(name, blobId) =>
          w.PutFile(ref, name, blobId);
        case DirEntry(name, treeId) =>
          ghost var before := w.heap;
          var child := Load(w, treeId);
          PrefixSame(before, w.heap, ref, 0);
          w.PutDirectory(ref, name, child);
      }
    }

    /** One item becomes one entry, its subdirectory saved before. */
    method SaveItem(w: WorkingTree, owner: nat, k: nat) returns (entry: Entry)
      requires Forward(w.heap) && owner < |w.heap| && k < |w.heap[owner]|
      modifies this
      ensures
        var (s', tail) := SaveEntries(S(), Plug(w.heap, owner, k + 1, -1, Nil), le);
        SaveEntries(old(S()), Plug(w.heap, owner, k, -1, Nil), le) == (s', [entry] + tail)
      decreases |w.heap| - owner, 0
    {
      var item := w.heap[owner][k];
      match item.slot {
        case FileSlot(blob) => entry := FileEntry(item.name, blob);
        case DirSlot(ref) =>
          var childTreeId := Save(w, ref);
          entry := DirEntry(item.name, childTreeId);
      }
    }

    /** Save the directory of the working tree, subdirectories first. */
    method Save(w: WorkingTree, owner: nat) returns (id: nat)
      requires Forward(w.heap) && owner < |w.heap|
      modifies this
      ensures (S(), id) == SaveTree(old(S()), Tree(w.heap, owner), le)
      decreases |w.heap| - owner
    {
      ghost var all := SaveEntries(S(), Tree(w.heap, owner), le);
      var entries: seq<Entry> := [];
      assert entries + all.1 == all.1;
      for k := 0 to |w.heap[owner]|
        invariant
          var (s', tail) := SaveEntries(S(), Plug(w.heap, owner, k, -1, Nil), le);
          all.0 == s' && all.1 == entries + tail
      {
        var entry := SaveItem(w, owner, k);
        ghost var tail := SaveEntries(S(), Plug(w.heap, owner, k + 1, -1, Nil), le).1;
        assert entries + ([entry] + tail) == entries + [entry] + tail;
        entries := entries + [entry];
      }
      assert entries + [] == entries;
      id := GetOrCreateTreeId(entries);
    }

    method BuildTreeFromChanges(baseTreeId: Option<nat>, changes: seq<RawChange>) returns (id: nat)
      requires Sound(S())
      modifies this
      ensures (S(), id) == Build(old(S()), baseTreeId, changes, le)
    {
      var w := new WorkingTree();
      var root;
      if baseTreeId.Some? {
        root := Load(w, baseTreeId.value);
      } else {
        root := w.NewDirectory();
      }
      ghost var s, base := S(), w.Value();
      for i := 0 to |changes|
        invariant w.Valid() && fresh(w)
        invariant ApplyRaw(s, base, changes) == ApplyRaw(S(), w.Value(), changes[i..])
      {
        var change := changes[i];
        assert changes[i..][0] == change && changes[i..][1..] == changes[i + 1..];
        if change.path == [] { continue; }
        if change.isDeleted {
          w.DeleteAt(change.path);
        } else if change.blobId.Some? || change.content.Some? {
          var blob;
          if change.blobId.Some? {
            blob := change.blobId.value;
          } else {
            blob := GetOrCreateBlobId(change.content.value, change.binary);
          }
          w.SetFileAt(change.path, blob);
        }
      }
      id := Save(w, root);
    }
  }
}
