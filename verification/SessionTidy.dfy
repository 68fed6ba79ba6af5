/**
 Reads, guarded writes and `rm` keep a session tidy, so over whole runs of them every recursive removal is exact.
 Also the runs in which it is not.
 */
module SessionTidy {
  import opened Wrappers
  import opened SessionState
  import opened SessionCoherence
  import opened SessionVisible
  import opened SessionRemoval

  // ---------------------------------------------------------------- lookups

  lemma FileLookupTidy(s: State, p: Path, r: Path)
    requires TidyAt(s, r)
    ensures TidyAt(EnsureFileLoaded(s, p).0, r)
  {
    FileLookup(s, p);
    var s' := EnsureFileLoaded(s, p).0;
    assert forall d :: Below(s', d) == Below(s, d);
    assert forall c :: CachedFile(s, c) ==> CachedFile(s', c);
  }

  /** A directory lookup that finds nothing is right: no listing would show anything below `p`. */
  lemma FailedDirLookup(s: State, p: Path)
    requires TidyAt(s, p) && p !in s.deleted && p !in s.modified && p != []
    requires Listing(s, p) == {} && !StatIsDirectory(s, p)
    ensures !Below(s, p)
  {
    forall q | Inside(p, q) ensures q !in s.files && q !in s.basePaths {
      var c := p + [q[|p|]];
      assert q[|p|] !in Listing(s, p);
      assert q == c || Inside(c, q);
      assert q == c ==> Parent(q) == p;
    }
  }

  lemma LiveFileListsNothing(s: State, p: Path)
    requires TidyAt(s, p) && p in s.files && p !in s.modified
    ensures Listing(s, p) == {} && !StatIsDirectory(s, p)
  {
    forall n ensures n !in Listing(s, p) {
      assert Inside(p, p + [n]);
      assert forall q :: Inside(p + [n], q) ==> Inside(p, q);
    }
  }

  /** What a directory lookup of `p` may change, and why. */
  ghost predicate DirLookedUp(s: State, s': State, p: Path) {
    && Coherent(s') && Grew(s, s')
    && s'.loadedFiles == s.loadedFiles
    && s'.loadedDirs <= s.loadedDirs + {p}
    && s'.notExistsAsDir <= s.notExistsAsDir + {p}
    && (forall c :: CachedFile(s, c) ==> CachedFile(s', c))
    && (p in s'.loadedDirs && p !in s.loadedDirs ==>
          p !in s.modified && (p == [] || Listing(s, p) != {} || StatIsDirectory(s, p)))
    && (p in s'.notExistsAsDir && p !in s.notExistsAsDir ==>
          p !in s.modified && p !in s.deleted && p != [] && Listing(s, p) == {} && !StatIsDirectory(s, p))
  }

  lemma DirLookupShape(s: State, p: Path)
    requires Coherent(s)
    ensures DirLookedUp(s, EnsureDirLoaded(s, p).0, p)
  {
    DirLookup(s, p);
  }

  lemma LookedUpTidy(s: State, s': State, p: Path, r: Path)
    requires TidyAt(s, r) && [] !in s.files && DirLookedUp(s, s', p)
    ensures TidyAt(s', r)
  {
    forall d ensures Below(s', d) == Below(s, d) {}
    if Within(r, p) {
      TidyBelow(s, r, p);
      if p in s.files && p !in s.modified {
        LiveFileListsNothing(s, p);
      }
      if p in s'.notExistsAsDir && p !in s.notExistsAsDir {
        FailedDirLookup(s, p);
      }
    }
    assert KnownEmpty(s', r);
    assert FilesShow(s', r);
  }

  lemma DirLookupTidy(s: State, p: Path, r: Path)
    requires TidyAt(s, r) && [] !in s.files
    ensures TidyAt(EnsureDirLoaded(s, p).0, r)
  {
    DirLookupShape(s, p);
    LookedUpTidy(s, EnsureDirLoaded(s, p).0, p, r);
  }

  lemma ExistsTidy(s: State, p: Path, r: Path)
    requires TidyAt(s, r) && [] !in s.files
    ensures TidyAt(Exists(s, p).0, r)
  {
    FileLookupTidy(s, p, r);
    DirLookupTidy(EnsureFileLoaded(s, p).0, p, r);
  }

  /** A path that `exists` confirms is tracked from then on; every later report in the removal agrees with it. */
  lemma ExistsSettles(s: State, p: Path)
    requires Coherent(s)
    ensures var (s1, found) := Exists(s, p);
      && Coherent(s1) && Grew(s, s1)
      && (found ==> Stat(s1, p) == (s1, Ok(ReportsFile(s, p))))
      && (found && !ReportsFile(s, p) ==> Readdir(s1, p) == (s1, Ok(Names(s1, p))) && !Blocked(s1, p))
      && (found ==> p !in s1.deleted && Tracked(s1, p))
      && (found && ReportsFile(s, p) ==> Blocked(s1, p))
  {
    ExistsLookup(s, p);
    ExistsAnswer(s, p);
  }

  /** Reading a file that `exists` just confirmed changes nothing more and yields the remote bytes. */
  lemma ReadSettled(s: State, p: Path)
    requires Coherent(s) && Exists(s, p).1 && ReportsFile(s, p)
    ensures p in s.files && ReadFileBuffer(Exists(s, p).0, p) == (Exists(s, p).0, Ok(s.files[p]))
  {
    ExistsSettles(s, p);
  }

  lemma ExistsKeepsReports(s: State, p: Path, c: Path)
    requires Coherent(s)
    ensures ReportsFile(Exists(s, p).0, c) == ReportsFile(s, c)
  {
    ExistsLookup(s, p);
    if c == p {
    } else {
      assert Tracked(Exists(s, p).0, c) == Tracked(s, c);
    }
  }

  lemma ExistsKeepsVisited(s: State, p: Path, q: Path)
    requires Coherent(s)
    ensures Visited(Exists(s, p).0, p, q) == Visited(s, p, q)
  {
    ExistsLookup(s, p);
    var s1 := Exists(s, p).0;
    forall c ensures ReportsFile(s1, c) == ReportsFile(s, c) {
      ExistsKeepsReports(s, p, c);
    }
    assert forall c :: Below(s1, c) == Below(s, c);
    assert forall c :: Listed(s1, c) == Listed(s, c);
  }

  lemma ExistsKeepsReached(s: State, p: Path)
    requires Coherent(s)
    ensures forall q :: Reached(Exists(s, p).0, p, q) == Reached(s, p, q)
    ensures AllVisible(Exists(s, p).0, p) == AllVisible(s, p)
  {
    var s1 := Exists(s, p).0;
    forall q ensures Visited(s1, p, q) == Visited(s, p, q) {
      ExistsKeepsVisited(s, p, q);
    }
    forall q ensures Visible(s1, q) == Visible(s, q) {
      ExistsKeepsVisible(s, p, q);
    }
  }

  /** A lookup of `p` changes what is known of `p` only; elsewhere it may add cache entries. */
  ghost predicate SameElsewhere(s: State, s': State, p: Path) {
    s'.basePaths == s.basePaths && s'.files == s.files && forall q :: q != p ==> SameAt(s, s', q)
  }

  lemma FileLookupSameElsewhere(s: State, p: Path)
    ensures SameElsewhere(s, EnsureFileLoaded(s, p).0, p)
  {
  }

  /** A directory lookup only adds cache entries. */
  lemma DirLookupKeepsCache(s: State, p: Path)
    ensures var s' := EnsureDirLoaded(s, p).0; forall q :: q in s.cache ==> q in s'.cache && s'.cache[q] == s.cache[q]
  {
  }

  /** And it enters no path but its own in a set. */
  lemma DirLookupSets(s: State, p: Path)
    ensures var s' := EnsureDirLoaded(s, p).0;
      && s' == s.(cache := s'.cache, loadedDirs := s'.loadedDirs, notExistsAsDir := s'.notExistsAsDir)
      && s.loadedDirs <= s'.loadedDirs <= s.loadedDirs + {p}
      && s.notExistsAsDir <= s'.notExistsAsDir <= s.notExistsAsDir + {p}
  {
  }

  lemma DirLookupSameElsewhere(s: State, p: Path)
    ensures SameElsewhere(s, EnsureDirLoaded(s, p).0, p)
  {
    DirLookupKeepsCache(s, p);
    DirLookupSets(s, p);
  }

  lemma ExistsSameElsewhere(s: State, p: Path)
    ensures SameElsewhere(s, Exists(s, p).0, p)
    ensures SameOutside(s, Exists(s, p).0, p)
  {
    var s1 := EnsureFileLoaded(s, p).0;
    FileLookupSameElsewhere(s, p);
    DirLookupSameElsewhere(s1, p);
    var s2 := EnsureDirLoaded(s1, p).0;
    assert forall q :: SameAt(s, s1, q) && SameAt(s1, s2, q) ==> SameAt(s, s2, q);
  }

  lemma RemovedAfterExists(s: State, p: Path, s': State)
    requires Coherent(s) && Removed(Exists(s, p).0, p, s')
    ensures Removed(s, p, s')
  {
    ExistsLookup(s, p);
    ExistsSameElsewhere(s, p);
    var s1 := Exists(s, p).0;
    ExistsKeepsReached(s, p);
    forall q | !Within(p, q) ensures SameAt(s, s', q) {
      assert SameAt(s, s1, q) && SameAt(s1, s', q);
    }
  }

  /** A forced removal of what does not exist removes nothing. */
  lemma NothingRemoved(s: State, p: Path)
    requires Coherent(s) && !Visible(s, p)
    ensures Removed(s, p, Exists(s, p).0)
  {
    ExistsLookup(s, p);
    ExistsSameElsewhere(s, p);
    forall q ensures !Reached(s, p, q) {
      assert Within(p, q) ==> q[..|p|] == p;
    }
  }

  // ---------------------------------------------------------------- removal

  lemma RemoveEntryTidy(s: State, p: Path)
    requires TidyAt(s, p) && p != []
    requires forall q :: Inside(p, q) ==> q !in s.files && q !in s.modified
    ensures TidyAt(RemoveEntry(s, p), p)
  {
    RemoveEntryKeepsCoherence(s, p);
    var s' := RemoveEntry(s, p);
    assert forall d :: Below(s', d) ==> Below(s, d);
    assert forall q :: Within(p, q) ==> q == p || Inside(p, q);
    assert forall c :: c != p && CachedFile(s, c) ==> CachedFile(s', c);
  }

  /** Tidiness inside the removed subtree and unchanged surroundings give tidiness of the whole. */
  lemma RemovedTidy(s: State, r: Path, p: Path, s': State)
    requires TidyAt(s, r) && Within(r, p) && Removed(s, p, s') && TidyAt(s', p)
    ensures TidyAt(s', r)
  {
    assert forall q :: Inside(r, q) ==> Within(r, q);
    assert forall d :: Below(s', d) ==> Below(s, d);
    forall q | q in s'.modified && Inside(r, q) && |q| >= 2 ensures Parent(q) in s'.modified {
      if !Inside(p, q) {
        assert !Within(p, Parent(q)) || q == p;
        assert !Within(p, Parent(q));
        assert SameAt(s, s', Parent(q));
      }
    }
    forall d | d in s'.notExistsAsDir && Within(r, d)
      ensures d in s'.modified || d in s'.deleted || !Below(s', d)
    {
      if !Within(p, d) { assert SameAt(s, s', d); }
    }
    forall c | c in s'.files && Within(r, c) && c in s'.loadedDirs ensures CachedFile(s', c) {
      if !Within(p, c) { assert SameAt(s, s', c); }
    }
    forall c, q | c in s'.files && Within(r, c) && c !in s'.modified && Inside(c, q) ensures q !in s'.basePaths {
      if !Within(p, c) { assert SameAt(s, s', c); }
    }
    forall c, q | c in s'.deleted && Within(r, c) && Inside(c, q) ensures q !in s'.files && q !in s'.modified {
      if !Within(p, c) { assert SameAt(s, s', c); }
    }
  }

  // ---------------------------------------------------------------- guarded writes

  /** The target is not a directory: nothing live or modified is inside it; and no ancestor of it is a file. */
  ghost predicate WriteGuard(s: State, p: Path) {
    && p != []
    && (forall a :: Inside(a, p) ==> a !in s.files)
    && (forall q :: Inside(p, q) ==> q !in s.files && q !in s.modified)
  }

  lemma GuardIsSafe(s: State, p: Path)
    requires WriteGuard(s, p)
    ensures WriteSafe(s, p)
  {
    MarksAre(s.modified, Parent(p));
    assert forall a :: Within(a, Parent(p)) ==> Inside(a, p);
  }

  /** An ancestor that a write does not mark stands above a modified one. */
  lemma UnmarkedAncestor(modified: set<Path>, p: Path, c: Path) returns (m: Path)
    requires Inside(c, p) && c != [] && c !in Marks(modified, Parent(p))
    ensures m in modified && Within(c, m) && Inside(m, p)
  {
    MarksAre(modified, Parent(p));
    assert Within(c, Parent(p));
    m :| Within(c, m) && Within(m, Parent(p)) && m in modified;
  }

  lemma ClosedAncestors(s: State, m: Path, c: Path)
    requires ModifiedClosed(s, []) && m in s.modified && Within(c, m) && c != []
    ensures c in s.modified
  {
    assert m[..|c|] == c;
    ModifiedChain(s, [], m, |c|);
  }

  lemma PreparedTidy(s: State, p: Path)
    requires TidyAt(s, []) && [] !in s.files
    ensures TidyAt(ParentPrepared(s, p), [])
  {
    ParentPreparedIsLookup(s, p);
    DirLookupTidy(s, Parent(p), []);
    var s1, s2 := EnsureDirLoaded(s, Parent(p)).0, ParentPrepared(s, p);
    assert forall d :: Below(s1, d) == Below(s2, d);
    assert forall c :: CachedFile(s1, c) ==> CachedFile(s2, c);
  }

  lemma FileLookupKeepsTidy(s: State, p: Path)
    requires Tidy(s)
    ensures Tidy(EnsureFileLoaded(s, p).0) && EnsureFileLoaded(s, p).0.files == s.files
  {
    FileLookupTidy(s, p, []);
  }

  lemma DirLookupKeepsTidy(s: State, p: Path)
    requires Tidy(s)
    ensures Tidy(EnsureDirLoaded(s, p).0) && EnsureDirLoaded(s, p).0.files == s.files
  {
    DirLookupTidy(s, p, []);
    DirLookupShape(s, p);
  }

  lemma ReadKeepsTidy(s: State, p: Path)
    requires Tidy(s)
    ensures Tidy(ReadFileBuffer(s, p).0) && ReadFileBuffer(s, p).0.files == s.files
    ensures Tidy(Readdir(s, p).0) && Readdir(s, p).0.files == s.files
  {
    FileLookupKeepsTidy(s, p);
    DirLookupKeepsTidy(s, p);
  }

  /** The two lookups that `exists` and `stat` make. */
  lemma LookupsKeepTidy(s: State, p: Path)
    requires Tidy(s)
    ensures Tidy(EnsureFileLoaded(s, p).0) && EnsureFileLoaded(s, p).0.files == s.files
    ensures
      var s2 := EnsureDirLoaded(EnsureFileLoaded(s, p).0, p).0;
      Tidy(s2) && s2.files == s.files
  {
    FileLookupKeepsTidy(s, p);
    DirLookupKeepsTidy(EnsureFileLoaded(s, p).0, p);
  }

  /** `exists` and `stat` end in the state before them or in one of the two after the lookups. */
  lemma LookStates(s: State, p: Path)
    ensures
      var s1 := EnsureFileLoaded(s, p).0;
      var s2 := EnsureDirLoaded(s1, p).0;
      Exists(s, p).0 in {s, s1, s2} && Stat(s, p).0 in {s, s1, s2}
  {
  }

  lemma LookKeepsTidy(s: State, p: Path)
    requires Tidy(s)
    ensures Tidy(Exists(s, p).0) && Exists(s, p).0.files == s.files
    ensures Tidy(Stat(s, p).0) && Stat(s, p).0.files == s.files
  {
    LookupsKeepTidy(s, p);
    LookStates(s, p);
  }

  lemma PreparedKeepsTidy(s: State, p: Path)
    requires Tidy(s)
    ensures Tidy(ParentPrepared(s, p))
  {
    PreparedTidy(s, p);
    DirLookupKeepsTidy(s, Parent(p));
    ParentPreparedIsLookup(s, p);
  }

  /** A state and what a guarded write of `p` makes of it, with the ancestors `marks` marked modified. */
  ghost predicate Written(s: State, p: Path, marks: set<Path>, s': State) {
    && Coherent(s')
    && s'.files.Keys == s.files.Keys + {p} && s'.markers == s.markers - {p} && s'.basePaths == s.basePaths
    && s'.modified == s.modified + marks + {p} && s'.deleted == s.deleted - marks - {p}
    && s'.loadedDirs == s.loadedDirs + marks && s'.notExistsAsDir == s.notExistsAsDir - marks - {p}
    && CachedFile(s', p) && (forall c :: CachedFile(s, c) ==> CachedFile(s', c))
    && (forall a :: a in marks ==> a != [] && Inside(a, p))
    && (forall c :: c != [] && Inside(c, p) && c !in marks ==>
          exists m :: m in s.modified && Within(c, m) && Inside(m, p))
  }

  lemma WriteShape(s: State, p: Path, content: Bytes)
    requires Coherent(s) && WriteGuard(s, p)
    ensures Written(ParentPrepared(s, p), p, Marks(s.modified, Parent(p)), WriteFile(s, p, content))
  {
    GuardIsSafe(s, p);
    WriteKeepsCoherence(s, p, content);
    ParentPreparedIsLookup(s, p);
    var marks := Marks(s.modified, Parent(p));
    MarksAre(s.modified, Parent(p));
    MarksAre(s.modified + {p}, Parent(p));
    assert forall c :: Within(c, Parent(p)) <==> Inside(c, p);
    assert Marks(s.modified + {p}, Parent(p)) == marks by {
      forall a ensures a in Marks(s.modified + {p}, Parent(p)) <==> a in marks {
        assert forall c :: Within(a, c) && Within(c, Parent(p)) ==> c != p;
      }
    }
    forall c | c != [] && Inside(c, p) && c !in marks
      ensures exists m :: m in s.modified && Within(c, m) && Inside(m, p)
    {
      var m := UnmarkedAncestor(s.modified, p, c);
    }
  }

  lemma AncestorOfModified(s: State, p: Path, marks: set<Path>, s': State, c: Path)
    requires Tidy(s) && Written(s, p, marks, s') && Inside(c, p) && c != []
    ensures c in s'.modified && c !in s'.deleted
  {
    if c !in marks {
      var m :| m in s.modified && Within(c, m) && Inside(m, p);
      ClosedAncestors(s, m, c);
    }
  }

  lemma WrittenClosed(s: State, p: Path, marks: set<Path>, s': State)
    requires Tidy(s) && WriteGuard(s, p) && Written(s, p, marks, s')
    ensures ModifiedClosed(s', []) && MarkersOwned(s', []) && [] !in s'.modified
  {
    forall q | q in s'.modified && Inside([], q) && |q| >= 2 ensures Parent(q) in s'.modified {
      if q in marks || q == p {
        AncestorOfModified(s, p, marks, s', Parent(q));
      }
    }
  }

  lemma WrittenHidesNothing(s: State, p: Path, marks: set<Path>, s': State)
    requires Tidy(s) && WriteGuard(s, p) && Written(s, p, marks, s')
    ensures DeletedEmpty(s', []) && KnownEmpty(s', [])
  {
    forall c | c != [] && Inside(c, p) ensures c in s'.modified && c !in s'.deleted {
      AncestorOfModified(s, p, marks, s', c);
    }
    forall d | d in s'.notExistsAsDir && d !in s'.modified && d !in s'.deleted ensures !Below(s', d) {
      assert !Inside(d, p);
      assert !Below(s, d);
    }
    forall c, q | c in s'.deleted && Inside(c, q) ensures q !in s'.files && q !in s'.modified {
      assert !Inside(c, p);
      assert q in marks ==> Inside(q, p) && Inside(c, p);
    }
  }

  lemma WrittenLeaves(s: State, p: Path, marks: set<Path>, s': State)
    requires Tidy(s) && WriteGuard(s, p) && Written(s, p, marks, s')
    ensures FilesAreLeaves(s', []) && FilesShow(s', [])
  {
    forall c, q | c in s'.files && Inside(c, q) ensures q !in s'.files && q !in s'.modified {
      assert q in marks ==> Inside(q, p) && Inside(c, p);
    }
  }

  lemma WrittenTidy(s: State, p: Path, marks: set<Path>, s': State)
    requires Tidy(s) && WriteGuard(s, p) && Written(s, p, marks, s')
    ensures Tidy(s')
  {
    WrittenClosed(s, p, marks, s');
    WrittenHidesNothing(s, p, marks, s');
    WrittenLeaves(s, p, marks, s');
  }

  /** A guarded write keeps the session tidy and adds exactly its own file. */
  lemma WriteKeepsTidy(s: State, p: Path, content: Bytes)
    requires Tidy(s) && WriteGuard(s, p)
    ensures Tidy(WriteFile(s, p, content)) && WriteFile(s, p, content).files == s.files[p := content]
  {
    PreparedKeepsTidy(s, p);
    ParentPreparedIsLookup(s, p);
    WriteShape(s, p, content);
    WrittenTidy(ParentPrepared(s, p), p, Marks(s.modified, Parent(p)), WriteFile(s, p, content));
    GuardIsSafe(s, p);
    WriteKeepsCoherence(s, p, content);
  }

  // ---------------------------------------------------------------- runs

  datatype Event =
    | Read(p: Path)
    | Look(p: Path)
    | Examine(p: Path)
    | ListDir(p: Path)
    | Write(p: Path, content: Bytes)
    | Remove(p: Path)

  /** One client call; `Remove` is a recursive `rm` of a path that exists and is not the root. */
  ghost predicate Step(s: State, e: Event, s': State) {
    match e
    case Read(p) => s' == ReadFileBuffer(s, p).0
    case Look(p) => s' == Exists(s, p).0
    case Examine(p) => s' == Stat(s, p).0
    case ListDir(p) => s' == Readdir(s, p).0
    case Write(p, content) => s' == WriteFile(s, p, content)
    case Remove(p) => p != [] && Exists(s, p).1 && Removed(s, p, s') && (TidyAt(s, p) ==> TidyAt(s', p))
  }

  /** What the calls mean on the flat map of live files. */
  function Effect(files: map<Path, Bytes>, e: Event): map<Path, Bytes> {
    match e
    case Write(p, content) => files[p := content]
    case Remove(p) => map q | q in files && !Within(p, q) :: files[q]
    case _ => files
  }

  ghost predicate Guarded(s: State, e: Event) {
    e.Write? ==> WriteGuard(s, e.p)
  }

  lemma RemoveKeepsTidy(s: State, p: Path, s': State)
    requires Tidy(s) && p != [] && Exists(s, p).1 && Removed(s, p, s') && (TidyAt(s, p) ==> TidyAt(s', p))
    ensures Tidy(s') && s'.files == Effect(s.files, Remove(p))
  {
    TidyBelow(s, [], p);
    ExistsAnswer(s, p);
    TidyRemovalIsExact(s, p, s');
    RemovedTidy(s, [], p, s');
    assert SameAt(s, s', []);
  }

  lemma StepKeepsTidy(s: State, e: Event, s': State)
    requires Tidy(s) && Step(s, e, s') && Guarded(s, e)
    ensures Tidy(s') && s'.files == Effect(s.files, e)
  {
    match e
    case Write(p, content) => WriteKeepsTidy(s, p, content);
    case Remove(p) => RemoveKeepsTidy(s, p, s');
    case Read(p) => ReadKeepsTidy(s, p);
    case ListDir(p) => ReadKeepsTidy(s, p);
    case _ => LookKeepsTidy(s, e.p);
  }

  function Effects(files: map<Path, Bytes>, events: seq<Event>): map<Path, Bytes> {
    if events == [] then files else Effect(Effects(files, events[..|events| - 1]), events[|events| - 1])
  }

  ghost predicate IsRun(states: seq<State>, events: seq<Event>) {
    && |states| == |events| + 1
    && (forall i :: 0 <= i < |events| ==> Step(states[i], events[i], states[i + 1]) && Guarded(states[i], events[i]))
  }

  lemma RunEnds(states: seq<State>, events: seq<Event>)
    requires IsRun(states, events) && events != []
    ensures var n := |events| - 1;
      && IsRun(states[..n + 1], events[..n]) && states[..n + 1][0] == states[0] && states[..n + 1][n] == states[n]
      && (Tidy(states[n]) ==>
            Tidy(states[n + 1]) && states[n + 1].files == Effect(states[n].files, events[n]))
  {
    var n := |events| - 1;
    var prefix, before := states[..n + 1], events[..n];
    assert Step(states[n], events[n], states[n + 1]) && Guarded(states[n], events[n]);
    if Tidy(states[n]) { StepKeepsTidy(states[n], events[n], states[n + 1]); }
    forall i | 0 <= i < n ensures Step(prefix[i], before[i], prefix[i + 1]) && Guarded(prefix[i], before[i]) {
      assert Step(states[i], events[i], states[i + 1]);
    }
  }

  /**
   Over every run of reads, lookups, guarded writes and recursive removals: the remote files are those of the flat
   map the calls describe, and every read at every moment of the run is truthful.
   */
  lemma {:induction false} RunsAreExact(states: seq<State>, events: seq<Event>)
    requires IsRun(states, events) && Tidy(states[0])
    ensures Tidy(states[|events|]) && Faithful(states[|events|])
    ensures states[|events|].files == Effects(states[0].files, events)
    decreases |events|
  {
    if events == [] {
    } else {
      RunEnds(states, events);
      RunsAreExact(states[..|events|], events[..|events| - 1]);
    }
    CoherentIsFaithful(states[|events|]);
  }

  /** A client opened on a session without deletion markers whose files are leaves starts tidy. */
  lemma OpenedIsTidy(files: map<Path, Bytes>, basePaths: set<Path>)
    requires basePaths <= files.Keys && [] !in files
    requires forall c, q :: c in files && Inside(c, q) ==> q !in files
    ensures Tidy(Opened(files, {}, basePaths))
  {
  }
}
