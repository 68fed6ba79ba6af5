/**
 What the client's operations answer, told from the state before the call: `stat`, reads, listings, `mkdir` and appends
 in every coherent state, and what the calls after a write, an append or a `mkdir` see.
 */
module SessionAnswers {
  import opened Wrappers
  import opened SessionState
  import opened SessionCoherence
  import opened SessionVisible
  import opened SessionRemoval
  import opened SessionTidy
  import opened SessionFindings

  /** `stat` finds exactly what `exists` finds, and tells files from directories. */
  lemma StatAnswer(s: State, p: Path)
    requires Coherent(s)
    ensures Stat(s, p).1 == if Visible(s, p) then Ok(ReportsFile(s, p)) else Err(ENOENT)
  {
    if !Tracked(s, p) && p !in s.deleted { StatOfUnknown(s, p); }
  }

  /** What the client does not know it looks up, as a file and then as a directory. */
  lemma StatOfUnknown(s: State, p: Path)
    requires Coherent(s) && !Tracked(s, p) && p !in s.deleted
    ensures Stat(s, p).1 ==
      if p in s.files then Ok(true) else if DirFound(s, p) then Ok(false) else Err(ENOENT)
  {
    var s1 := EnsureFileLoaded(s, p).0;
    FileLookup(s, p);
    DirLookup(s1, p);
    SameRemote(s, s1, p);
  }

  /** A new client finds the directory of a base file that nobody has read. */
  lemma StatOfUnreadDirectory(d: Path, f: string, content: Bytes)
    requires d != []
    ensures Stat(Opened(map[d + [f] := content], {}, {d + [f]}), d).1 == Ok(false)
  {
    var s := Opened(map[d + [f] := content], {}, {d + [f]});
    assert f in Listing(s, d);
    StatAnswer(s, d);
  }

  /** A read fails on every path that is not live, on a directory that the client recorded with another error. */
  lemma ReadAnswer(s: State, p: Path)
    requires Coherent(s)
    ensures ReadFileBuffer(s, p).1 ==
      if p in s.files then Ok(s.files[p]) else if p in s.modified then Err(EISDIR) else Err(ENOENT)
  {
  }

  /** The client takes the path for a directory without asking, or the remote shows something in it. */
  predicate Enterable(s: State, p: Path) {
    p !in s.deleted && (p == [] || p in s.modified || p in s.loadedDirs || DirFound(s, p))
  }

  /** A listing holds the names of the entries that are live or lead to something below, and of the client's own. */
  lemma ReaddirAnswer(s: State, p: Path)
    requires Coherent(s)
    ensures Readdir(s, p).1.Ok? <==> Enterable(s, p)
    ensures Readdir(s, p).1.Err? ==> Readdir(s, p).1.error == ENOENT
    ensures Readdir(s, p).1.Ok? ==> forall n :: n in Readdir(s, p).1.value <==> Listed(s, p + [n])
  {
    var s1 := EnsureDirLoaded(s, p).0;
    DirLookup(s, p);
    forall n ensures n in Names(s1, p) <==> Listed(s, p + [n]) {
      NamesAreListed(s1, p, n);
      assert Below(s1, p + [n]) == Below(s, p + [n]);
    }
  }

  /** An existing path that is no file can be listed. */
  lemma DirectoriesEnterable(s: State, p: Path)
    requires Coherent(s) && Visible(s, p) && !ReportsFile(s, p)
    ensures Enterable(s, p)
  {
  }

  // ---------------------------------------------------------------- mkdir

  /** `mkdir` without `recursive`: which of the four ways it ends is decided by the state before it. */
  lemma MkdirAnswer(s: State, p: Path)
    requires Coherent(s)
    ensures Mkdir(s, p, false).1 ==
      if Visible(s, p) then Err(EEXIST)
      else if Parent(p) != [] && !Visible(s, Parent(p)) then Err(ENOENT)
      else if p in s.cache || LookupCaches(s, Parent(p), p) then Err(EEXIST)
      else Ok(())
  {
    ExistsIsVisible(s, p);
    if !Visible(s, p) && Parent(p) != [] {
      var s1, g := Exists(s, p).0, Parent(p);
      ExistsLookup(s, p);
      FailedExists(s, p, g);
      FailedExists(s, p, p);
      ExistsIsVisible(s1, g);
      ExistsAnswer(s1, g);
      StillInvisible(s, p);
      if Visible(s, g) {
        if p !in s.cache { ExistsCachesChild(s1, p); } else { ExistsLookup(s1, g); }
      }
    }
  }

  /** `mkdir -p` is only ever refused by the in-memory cache. */
  lemma {:induction false} MkdirError(s: State, p: Path)
    requires Coherent(s)
    ensures Mkdir(s, p, true).1.Err? ==> Mkdir(s, p, true).1.error == EEXIST
    decreases |p|
  {
    ExistsLookup(s, p);
    var (s1, found) := Exists(s, p);
    if !found && Parent(p) != [] {
      MkdirError(s1, Parent(p));
      MkdirKeepsKeys(s1, Parent(p), p);
    }
  }

  /** The client's own record of a path: changed here, not deleted, and nothing left of earlier answers. */
  predicate Recorded(s: State, p: Path) {
    p in s.modified && p !in s.deleted && p !in s.notExistsAsFile && p !in s.notExistsAsDir
  }

  /** A directory that was made is one to `exists` and `stat`, and its parent lists it; nothing remote changed. */
  lemma MkdirMakes(s: State, p: Path, recursive: bool)
    requires Coherent(s) && !Visible(s, p) && Mkdir(s, p, recursive).1.Ok?
    ensures var s' := Mkdir(s, p, recursive).0;
      && Visible(s', p) && !ReportsFile(s', p) && Listed(s', p) && Recorded(s', p) && p in s'.loadedDirs
      && s'.files == s.files && s'.markers == s.markers
  {
    ExistsIsVisible(s, p);
    MkdirKeepsCoherence(s, p, recursive);
    MkdirKeepsMarkers(s, p, recursive);
  }

  lemma {:induction false} MkdirKeepsMarkers(s: State, p: Path, recursive: bool)
    requires Coherent(s)
    ensures Mkdir(s, p, recursive).0.markers == s.markers
    decreases |p|
  {
    ExistsLookup(s, p);
    var (s1, found) := Exists(s, p);
    if !found && Parent(p) != [] {
      if recursive { MkdirKeepsMarkers(s1, Parent(p), true); } else { ExistsLookup(s1, Parent(p)); }
    }
  }

  /** Looking a directory up for the first time caches a listed child exactly when it is neither tracked nor live. */
  lemma LookupCachesChild(s: State, p: Path, n: string)
    requires p !in s.deleted && !Tracked(s, p) && DirFound(s, p) && p + [n] !in s.cache
    ensures p + [n] in EnsureDirLoaded(s, p).0.cache <==>
      Below(s, p + [n]) && !Tracked(s, p + [n]) && p + [n] !in s.files
  {
    var c, names := p + [n], Listing(s, p);
    var cache := if p in s.cache then s.cache else CacheMkdirs(s.cache, p);
    assert c !in cache;
    forall m | m in names && NeedsPlaceholder(s, cache, p + [m]) && c in Ancestors(p + [m]) + {p + [m]} ensures m == n {
      assert (p + [m])[|p|] == m && c[|p|] == n;
    }
    assert c in Placeholders(s, cache, p, names) <==> n in names && NeedsPlaceholder(s, cache, c);
  }

  /** The cache holds something inside the cached directory. */
  ghost predicate HoldsInside(s: State, p: Path) {
    p in s.cache && s.cache[p].Dir? && exists q :: q in s.cache && Inside(p, q)
  }

  /**
   Making a directory again in an existing one, right after it was removed: refused exactly when the cache still holds
   something inside it, or gets it back while the parent is looked up.
   */
  lemma MkdirAfterRemoval(s: State, p: Path)
    requires Coherent(s) && (Parent(p) == [] || Visible(RemoveEntry(s, p), Parent(p)))
    ensures var s' := RemoveEntry(s, p);
      && !Visible(s', p)
      && (Mkdir(s', p, false).1 == Ok(()) <==> !HoldsInside(s, p) && !LookupCaches(s', Parent(p), p))
      && (Mkdir(s', p, false).1.Err? ==> Mkdir(s', p, false).1 == Err(EEXIST))
  {
    RemoveEntryKeepsCoherence(s, p);
    MkdirAnswer(RemoveEntry(s, p), p);
  }

  // ---------------------------------------------------------------- writes

  /** An append is refused exactly on what the cache holds as a directory. */
  lemma AppendAnswer(s: State, p: Path, content: Bytes, reencode: Bytes -> Bytes)
    requires Coherent(s)
    ensures AppendFile(s, p, content, reencode).1 ==
      if p !in s.files && p in s.cache then Err(EISDIR) else Ok(())
  {
    AppendLookupIsLookup(s, p);
  }

  /** What was written is a file to `stat`, its parent lists it, and no deletion marker is left at it. */
  lemma WriteShows(s: State, p: Path, content: Bytes)
    requires Coherent(s)
    ensures var s' := WriteFile(s, p, content);
      && Visible(s', p) && ReportsFile(s', p) && Listed(s', p) && Recorded(s', p)
      && s'.files == s.files[p := content] && s'.markers == s.markers - {p}
  {
    WriteSets(s, p, content);
    ParentPreparedIsLookup(s, p);
    MarksAre(s.modified + {p}, Parent(p));
  }

  lemma AppendShows(s: State, p: Path, content: Bytes, reencode: Bytes -> Bytes)
    requires Coherent(s) && AppendFile(s, p, content, reencode).1.Ok?
    ensures var s' := AppendFile(s, p, content, reencode).0;
      && Visible(s', p) && ReportsFile(s', p) && Listed(s', p) && p in s'.modified && p !in s'.deleted
      && s'.files == s.files[p := if p in s.files then reencode(s.files[p] + content) else content]
      && s'.markers == s.markers - {p}
  {
    AppendLookupIsLookup(s, p);
    WriteShows(AppendLookup(s, p), p, content);
  }

  /** A removed entry is gone, and its marker stays. */
  lemma RemovalShows(s: State, p: Path)
    ensures var s' := RemoveEntry(s, p);
      && !Visible(s', p) && !Tracked(s', p) && s'.files == s.files - {p} && s'.markers == s.markers + {p}
  {
  }
}
