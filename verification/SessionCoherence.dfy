/**
 Cache coherence of the session filesystem: what a read returns is what the remote holds. `Coherent` is the joint
 invariant of the cache and the tracking sets; `Faithful` is its observable consequence.
 */
module SessionCoherence {
  import opened Wrappers
  import opened SessionState

  ghost predicate CacheExact(s: State) {
    forall p :: p in s.cache && s.cache[p].File? ==> p in s.files && s.files[p] == s.cache[p].content
  }

  ghost predicate TrackedCached(s: State) {
    && (forall p :: p in s.loadedFiles ==> CachedFile(s, p))
    && (forall p :: CachedFile(s, p) ==> p in s.loadedFiles || p in s.modified)
    && (forall p :: p in s.loadedDirs ==> p in s.cache)
    && (forall p :: p in s.modified ==> p in s.cache && (p in s.files ==> CachedFile(s, p)))
  }

  ghost predicate AbsenceExact(s: State) {
    && s.deleted !! s.files.Keys
    && s.deleted !! s.modified
    && s.notExistsAsFile !! s.files.Keys
  }

  ghost predicate Coherent(s: State) {
    CacheExact(s) && TrackedCached(s) && AbsenceExact(s)
  }

  /** A read of `p` yields the remote bytes when `p` is live, and fails when it is not. */
  ghost predicate ReadsTrue(s: State, p: Path) {
    var r := ReadFileBuffer(s, p).1;
    if p in s.files then r == Ok(s.files[p]) else r.Err?
  }

  ghost predicate Faithful(s: State) {
    forall p :: ReadsTrue(s, p)
  }

  lemma CoherentIsFaithful(s: State)
    requires Coherent(s)
    ensures Faithful(s)
  {
    forall p ensures ReadsTrue(s, p) {
      if p !in s.deleted && p in s.modified {
        assert p in s.cache;
      }
    }
  }

  lemma OpenedIsCoherent(files: map<Path, Bytes>, markers: set<Path>, basePaths: set<Path>)
    ensures Coherent(Opened(files, markers, basePaths))
  {
  }

  // ---------------------------------------------------------------- lookups

  /** `s'` is `s` after a lookup: the remote and the record of local changes are the same, what was known stays so. */
  ghost predicate Grew(s: State, s': State) {
    && s'.files == s.files && s'.markers == s.markers && s'.basePaths == s.basePaths
    && s'.modified == s.modified && s'.deleted == s.deleted
    && s.loadedFiles <= s'.loadedFiles && s.loadedDirs <= s'.loadedDirs
    && s.notExistsAsFile <= s'.notExistsAsFile && s.notExistsAsDir <= s'.notExistsAsDir
    && s.cache.Keys <= s'.cache.Keys
    && (forall q :: q in s.cache ==> s'.cache[q] == s.cache[q] || CachedFile(s', q))
  }

  lemma FileLookup(s: State, p: Path)
    requires Coherent(s)
    ensures Coherent(EnsureFileLoaded(s, p).0) && Grew(s, EnsureFileLoaded(s, p).0)
  {
  }

  lemma DirLookup(s: State, p: Path)
    requires Coherent(s)
    ensures Coherent(EnsureDirLoaded(s, p).0) && Grew(s, EnsureDirLoaded(s, p).0)
  {
  }

  lemma ExistsLookup(s: State, p: Path)
    requires Coherent(s)
    ensures Coherent(Exists(s, p).0) && Grew(s, Exists(s, p).0)
  {
    FileLookup(s, p);
    DirLookup(EnsureFileLoaded(s, p).0, p);
  }

  lemma StatLookup(s: State, p: Path)
    requires Coherent(s)
    ensures Coherent(Stat(s, p).0) && Grew(s, Stat(s, p).0)
  {
    FileLookup(s, p);
    DirLookup(EnsureFileLoaded(s, p).0, p);
  }

  // ---------------------------------------------------------------- writes

  /** No ancestor about to be recorded as a modified directory is a live file that was never read into the cache. */
  ghost predicate WriteSafe(s: State, p: Path) {
    forall a :: a in Marks(s.modified, Parent(p)) && a in s.files ==> CachedFile(s, a)
  }

  lemma ParentPreparedIsLookup(s: State, p: Path)
    requires Coherent(s)
    ensures Coherent(ParentPrepared(s, p)) && Grew(s, ParentPrepared(s, p))
    ensures forall a :: CachedFile(s, a) <==> CachedFile(ParentPrepared(s, p), a)
  {
    DirLookup(s, Parent(p));
  }

  lemma ParentsBelongToAncestors(p: Path)
    ensures forall a :: a != [] && Within(a, Parent(p)) ==> a in Ancestors(p)
  {
  }

  lemma WriteKeepsCoherence(s: State, p: Path, content: Bytes)
    requires Coherent(s) && WriteSafe(s, p)
    ensures Coherent(WriteFile(s, p, content))
    ensures WriteFile(s, p, content).files == s.files[p := content]
  {
    ParentPreparedIsLookup(s, p);
    ParentsBelongToAncestors(p);
    MarksAre(s.modified, Parent(p));
    MarksAre(s.modified + {p}, Parent(p));
    var marks := Marks(s.modified + {p}, Parent(p));
    assert marks <= Marks(s.modified, Parent(p));
  }

  /** An unsafe write loses a live file: the ancestor is recorded as a modified directory and reads as one. */
  lemma UnsafeWriteHidesAncestor(s: State, p: Path, content: Bytes, a: Path)
    requires Coherent(s)
    requires a in Marks(s.modified, Parent(p)) && a in s.files && !CachedFile(s, a)
    ensures !ReadsTrue(WriteFile(s, p, content), a)
  {
    ParentPreparedIsLookup(s, p);
    ParentsBelongToAncestors(p);
    MarksAre(s.modified, Parent(p));
    MarksAre(s.modified + {p}, Parent(p));
    assert a in Ancestors(p);
    assert p !in Marks(s.modified, Parent(p));
    forall c | Within(a, c) && Within(c, Parent(p)) ensures c !in s.modified + {p} {
      assert |c| < |p|;
    }
    assert a in Marks(s.modified + {p}, Parent(p));
  }

  /** From a coherent state, a write leaves every read truthful exactly when it is safe. */
  lemma WriteFaithfulIff(s: State, p: Path, content: Bytes)
    requires Coherent(s)
    ensures Faithful(WriteFile(s, p, content)) <==> WriteSafe(s, p)
  {
    if WriteSafe(s, p) {
      WriteKeepsCoherence(s, p, content);
      CoherentIsFaithful(WriteFile(s, p, content));
    } else {
      var a :| a in Marks(s.modified, Parent(p)) && a in s.files && !CachedFile(s, a);
      UnsafeWriteHidesAncestor(s, p, content, a);
    }
  }

  // ---------------------------------------------------------------- appends

  /** The state in which `appendFile` decides whether there is something to append to. */
  function AppendLookup(s: State, p: Path): State {
    if p in s.modified then s else EnsureFileLoaded(s, p).0
  }

  lemma AppendLookupIsLookup(s: State, p: Path)
    requires Coherent(s)
    ensures Coherent(AppendLookup(s, p)) && Grew(s, AppendLookup(s, p))
    ensures CachedFile(AppendLookup(s, p), p) <==> p in s.files
    ensures p in s.files ==> AppendLookup(s, p).cache[p] == File(s.files[p])
  {
    FileLookup(s, p);
  }

  /** When the appended text is written back unchanged by the decode-encode trip, or a fresh write is safe. */
  ghost predicate AppendSafe(s: State, p: Path, content: Bytes, reencode: Bytes -> Bytes) {
    if p in s.files then reencode(s.files[p] + content) == s.files[p] + content
    else p in AppendLookup(s, p).cache || WriteSafe(AppendLookup(s, p), p)
  }

  /** Appending to a live file concatenates; to an absent path it creates; to a cached directory it fails. */
  lemma AppendKeepsCoherence(s: State, p: Path, content: Bytes, reencode: Bytes -> Bytes)
    requires Coherent(s) && AppendSafe(s, p, content, reencode)
    ensures var (s', r) := AppendFile(s, p, content, reencode);
      Coherent(s') && s'.files ==
        (if p in s.files then s.files[p := s.files[p] + content]
         else if r.Ok? then s.files[p := content] else s.files)
  {
    AppendLookupIsLookup(s, p);
    var s1 := AppendLookup(s, p);
    if p !in s1.cache {
      WriteKeepsCoherence(s1, p, content);
      var s2 := WriteFile(s1, p, content);
      assert s2.(modified := s2.modified + {p}, deleted := s2.deleted - {p}) == s2;
    }
  }

  lemma AppendFaithfulIff(s: State, p: Path, content: Bytes, reencode: Bytes -> Bytes)
    requires Coherent(s)
    ensures Faithful(AppendFile(s, p, content, reencode).0) <==> AppendSafe(s, p, content, reencode)
  {
    AppendLookupIsLookup(s, p);
    var s1, s' := AppendLookup(s, p), AppendFile(s, p, content, reencode).0;
    if AppendSafe(s, p, content, reencode) {
      AppendKeepsCoherence(s, p, content, reencode);
      CoherentIsFaithful(s');
    } else if p in s.files {
      assert s'.cache[p] == File(s.files[p] + content) && s'.files[p] != s.files[p] + content;
      assert !ReadsTrue(s', p);
    } else {
      WriteFaithfulIff(s1, p, content);
      var s2 := WriteFile(s1, p, content);
      assert s2.(modified := s2.modified + {p}, deleted := s2.deleted - {p}) == s2;
    }
  }

  // ---------------------------------------------------------------- directories and removal

  lemma ExistsAnswer(s: State, p: Path)
    requires Coherent(s)
    ensures p in s.files ==> Exists(s, p).1
    ensures Exists(s, p).1 ==> p in Exists(s, p).0.cache && p !in s.deleted
  {
  }

  lemma {:induction false} MkdirKeepsCoherence(s: State, p: Path, recursive: bool)
    requires Coherent(s)
    ensures Coherent(Mkdir(s, p, recursive).0) && Mkdir(s, p, recursive).0.files == s.files
    decreases |p|
  {
    ExistsLookup(s, p);
    ExistsAnswer(s, p);
    var (s1, found) := Exists(s, p);
    if !found && Parent(p) != [] {
      if recursive {
        MkdirKeepsCoherence(s1, Parent(p), true);
      } else {
        ExistsLookup(s1, Parent(p));
      }
    }
  }

  lemma RemoveEntryKeepsCoherence(s: State, p: Path)
    requires Coherent(s)
    ensures Coherent(RemoveEntry(s, p)) && RemoveEntry(s, p).files == s.files - {p}
  {
  }
}
