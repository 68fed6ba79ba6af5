/**
 The session filesystem client as the class it is: an in-memory cache and six tracking sets, updated field by field.
 Every method is tied to the state functions of SessionState; the recursive ones to the relations proved about them.
 */
module SessionFs {
  import opened Wrappers
  import opened SessionState
  import opened SessionCoherence
  import opened SessionVisible
  import opened SessionRemoval
  import opened SessionTidy
  import opened SessionCopy
  import opened SessionClear

  /** What a recursive copy of `src` to `dest` leaves, when all its arguments lie below the disjoint `r` and `d`. */
  ghost predicate CpOutcome(s: State, src: Path, dest: Path, r: Path, s': State, ok: bool) {
    && SourceKept(s, s', r)
    && (forall q :: !Within(dest, q) ==> (q in s'.files <==> q in s.files))
    && (forall q :: !Within(dest, q) && q in s.files ==> s'.files[q] == s.files[q])
    && (ok ==> Copied(s, src, dest, s'.files) && Exists(s, src).1 && Tracked(s', src))
  }

  /** The arguments of a copy nested in one from `r` to the disjoint `d`. */
  ghost predicate CpReady(s: State, src: Path, dest: Path, r: Path, d: Path, depth: nat) {
    && Coherent(s) && Disjoint(r, d) && Within(r, src) && Within(d, dest)
    && Shallow(s, src, depth) && NoClash(s, src, dest)
  }

  /** A file, as the client sees it. */
  ghost predicate FileThere(s: State, p: Path) {
    Coherent(s) && Exists(s, p).1 && ReportsFile(s, p)
  }

  /** A copied file is written as it was read, wherever the destination is. */
  lemma FileCopySteps(s: State, src: Path)
    requires FileThere(s, src)
    ensures var s1 := Exists(s, src).0;
      && src in s.files && s1.files == s.files && Coherent(s1)
      && Stat(s1, src) == (s1, Ok(true)) && ReadFileBuffer(s1, src) == (s1, Ok(s.files[src]))
  {
    ExistsSettles(s, src);
    ReadSettled(s, src);
    ExistsLookup(s, src);
  }

  /** A file in the cache is still one after a write anywhere. */
  lemma WriteKeepsFile(s: State, src: Path, dest: Path, content: Bytes)
    requires Coherent(s) && WriteSafe(s, dest) && CachedFile(s, src) && Tracked(s, src) && src !in s.deleted
    ensures var s' := WriteFile(s, dest, content);
      && Coherent(s') && s'.files == s.files[dest := content] && Visible(s', src) && Blocked(s', src)
  {
    WriteKeepsCoherence(s, dest, content);
    ParentPreparedIsLookup(s, dest);
    var s' := WriteFile(s, dest, content);
    assert CachedFile(s', src) && Tracked(s', src);
  }

  lemma FileCopyCoherent(s: State, src: Path, dest: Path)
    requires FileMovable(s, src, dest)
    ensures src in s.files && Coherent(WriteFile(Exists(s, src).0, dest, s.files[src]))
  {
    FileCopySteps(s, src);
    WriteKeepsCoherence(Exists(s, src).0, dest, s.files[src]);
  }

  lemma FileGone(s: State, p: Path, s': State, r: Result<(), FsError>)
    requires Coherent(s) && Visible(s, p) && Blocked(s, p) && RmOutcome(s, p, true, false, s', r)
    ensures r == Ok(()) && s'.files == s.files - {p}
  {
    OnlyItself(s, p);
    assert AllVisible(s, p);
    assert Removed(s, p, s');
  }

  /** A moved file is where it was moved to and no longer where it was, so it is lost when it was moved onto itself. */
  lemma FileMoved(s: State, src: Path, dest: Path, s2: State, r: Result<(), FsError>)
    requires FileThere(s, src) && src in s.files && WriteSafe(Exists(s, src).0, dest)
    requires RmOutcome(WriteFile(Exists(s, src).0, dest, s.files[src]), src, true, false, s2, r)
    ensures r == Ok(()) && s2.files == s.files[dest := s.files[src]] - {src}
  {
    FileCopySteps(s, src);
    AnswerIsKnown(s, src);
    WriteKeepsFile(Exists(s, src).0, src, dest, s.files[src]);
    FileGone(WriteFile(Exists(s, src).0, dest, s.files[src]), src, s2, r);
  }

  lemma CpStart(s: State, src: Path, dest: Path, r: Path, d: Path, depth: nat)
    requires CpReady(s, src, dest, r, d, depth)
    ensures CpOutcome(s, src, dest, r, s, false)
    ensures CpOutcome(s, src, dest, r, Exists(s, src).0, false) && Exists(s, src).0.files == s.files
    ensures Exists(s, src).1 ==> Stat(Exists(s, src).0, src) == (Exists(s, src).0, Ok(ReportsFile(s, src)))
  {
    SameAtKeepsSource(s, s, r);
    ExistsKeepsSource(s, src, r);
    ExistsSettles(s, src);
  }

  lemma DestApart(r: Path, d: Path, dest: Path)
    requires Disjoint(r, d) && Within(d, dest)
    ensures !Within(r, dest) && dest != []
  {
  }

  lemma CpFileSteps(s: State, src: Path, dest: Path, r: Path, d: Path, depth: nat)
    requires CpReady(s, src, dest, r, d, depth) && Exists(s, src).1 && ReportsFile(s, src)
    ensures var s1 := Exists(s, src).0;
      && src in s.files && ReadFileBuffer(s1, src) == (s1, Ok(s.files[src]))
      && CpOutcome(s, src, dest, r, WriteFile(s1, dest, s.files[src]), true)
  {
    var s1 := Exists(s, src).0;
    ReadSettled(s, src);
    DestApart(r, d, dest);
    CpFileSettled(s, src, r);
    CpFileSafe(s, src, dest, s1);
    CpFileOutcome(s, s1, src, dest, r, d);
  }

  lemma CpFileSettled(s: State, src: Path, r: Path)
    requires Coherent(s) && Exists(s, src).1
    ensures SourceKept(s, Exists(s, src).0, r) && Exists(s, src).0.files == s.files
    ensures Tracked(Exists(s, src).0, src) && src !in s.deleted
  {
    ExistsKeepsSource(s, src, r);
    ExistsSettles(s, src);
  }

  lemma CpFileSafe(s: State, src: Path, dest: Path, s1: State)
    requires Coherent(s) && NoClash(s, src, dest) && ReportsFile(s, src) && s1.files == s.files && dest != []
    ensures WriteSafe(s1, dest)
  {
    SourceLands(s, src, dest);
    MarksAre(s1.modified, Parent(dest));
    forall a | a in Marks(s1.modified, Parent(dest)) ensures a !in s1.files {
      assert Inside(a, dest);
    }
  }

  lemma CpFileOutcome(s: State, s1: State, src: Path, dest: Path, r: Path, d: Path)
    requires Coherent(s) && Disjoint(r, d) && Within(r, src) && Within(d, dest)
    requires SourceKept(s, s1, r) && s1.files == s.files && Tracked(s1, src) && Exists(s, src).1
    requires src !in s.deleted && ReportsFile(s, src) && src in s.files && WriteSafe(s1, dest)
    ensures CpOutcome(s, src, dest, r, WriteFile(s1, dest, s.files[src]), true)
  {
    DestApart(r, d, dest);
    var s2 := WriteFile(s1, dest, s.files[src]);
    WriteKeepsCoherence(s1, dest, s.files[src]);
    WriteKeepsSource(s1, dest, s.files[src], r);
    assert SourceAt(s1, s2, src);
    SourceKeptChain(s, s1, s2, r);
    FileCopied(s, src, dest, s2.files);
    assert Within(dest, dest);
  }

  lemma SourceLands(s: State, src: Path, dest: Path)
    requires Coherent(s) && ReportsFile(s, src)
    ensures LandsOn(s, src, dest, dest)
  {
    assert Origin(src, dest, dest) == src;
    assert Visited(s, src, src);
  }

  lemma CpDirSteps(s: State, src: Path, dest: Path, r: Path, d: Path, depth: nat)
    requires CpReady(s, src, dest, r, d, depth) && Exists(s, src).1 && !ReportsFile(s, src)
    ensures CpOutcome(s, src, dest, r, Mkdir(Exists(s, src).0, dest, true).0, false)
  {
    var s1 := Exists(s, src).0;
    ExistsKeepsSource(s, src, r);
    DestApart(r, d, dest);
    MkdirKeepsSource(s1, dest, true, r);
    SourceKeptChain(s, s1, Mkdir(s1, dest, true).0, r);
  }

  /** After the destination directory was made, the listing of the source is what it was. */
  lemma CpDirListed(s: State, s2: State, src: Path, dest: Path, r: Path, d: Path, depth: nat)
    requires CpReady(s, src, dest, r, d, depth) && Exists(s, src).1 && !ReportsFile(s, src)
    requires s2 == Mkdir(Exists(s, src).0, dest, true).0
    ensures Readdir(s2, src) == (s2, Ok(Names(s2, src)))
    ensures CpReady(s2, src, dest, r, d, depth) && !Blocked(s2, src)
  {
    var s1 := Exists(s, src).0;
    ExistsKeepsSource(s, src, r);
    ExistsSettles(s, src);
    DestApart(r, d, dest);
    MkdirKeepsSource(s1, dest, true, r);
    SourceKeptChain(s, s1, s2, r);
    assert Within(r, src) && SourceAt(s1, s2, src);
    assert Tracked(s1, src);
    KeptReady(s, s2, src, dest, r, d, depth);
  }

  lemma KeptReady(s: State, s2: State, src: Path, dest: Path, r: Path, d: Path, depth: nat)
    requires CpReady(s, src, dest, r, d, depth) && SourceKept(s, s2, r) && s2.files == s.files
    ensures CpReady(s2, src, dest, r, d, depth)
  {
    forall q | Inside(src, q) ensures Within(r, q) {}
    forall q | Within(r, q) ensures SourceAt(s, s2, q) {}
    forall q | Within(dest, q) ensures LandsOn(s2, src, dest, q) == LandsOn(s, src, dest, q) {
      SourceKeptVisits(s, s2, r, src, Origin(src, dest, q));
    }
  }

  lemma CpDirFinished(s: State, s2: State, src: Path, dest: Path, r: Path, d: Path, depth: nat, s3: State, ok: bool)
    requires CpReady(s, src, dest, r, d, depth) && Exists(s, src).1 && !ReportsFile(s, src)
    requires s2 == Mkdir(Exists(s, src).0, dest, true).0
    requires CpProgress(s2, src, dest, r, s3, Names(s2, src), ok)
    ensures CpOutcome(s, src, dest, r, s3, ok)
  {
    var s1 := Exists(s, src).0;
    ExistsSettles(s, src);
    ExistsKeepsSource(s, src, r);
    CpDirListed(s, s2, src, dest, r, d, depth);
    CpDirSteps(s, src, dest, r, d, depth);
    MkdirKeepsCoherence(s1, dest, true);
    CpDirTracked(s1, s2, s3, src, dest, r, d);
    CpDirJoined(s, s2, s3, src, dest, r, ok);
  }

  lemma CpDirTracked(s1: State, s2: State, s3: State, src: Path, dest: Path, r: Path, d: Path)
    requires Coherent(s1) && Disjoint(r, d) && Within(r, src) && Within(d, dest)
    requires s2 == Mkdir(s1, dest, true).0 && SourceKept(s2, s3, r) && Tracked(s1, src)
    ensures Tracked(s3, src)
  {
    DestApart(r, d, dest);
    MkdirKeepsSource(s1, dest, true, r);
    assert SourceAt(s1, s2, src) && SourceAt(s2, s3, src);
  }

  lemma CpDirComplete(s: State, s2: State, s3: State, src: Path, dest: Path, r: Path)
    requires Coherent(s) && Within(r, src) && SourceKept(s, s2, r) && s2.files == s.files && !Blocked(s2, src)
    requires CopiedThrough(s2, src, dest, Names(s2, src), s3.files)
    ensures Copied(s, src, dest, s3.files)
  {
    DirectoryCopied(s2, src, dest, s3.files);
    forall q | Within(dest, q) ensures LandsOn(s2, src, dest, q) == LandsOn(s, src, dest, q) {
      SourceKeptVisits(s, s2, r, src, Origin(src, dest, q));
    }
  }

  lemma CpDirJoined(s: State, s2: State, s3: State, src: Path, dest: Path, r: Path, ok: bool)
    requires Coherent(s) && Within(r, src) && SourceKept(s, s2, r) && s2.files == s.files && !Blocked(s2, src)
    requires CpProgress(s2, src, dest, r, s3, Names(s2, src), ok) && Exists(s, src).1 && Tracked(s3, src)
    ensures CpOutcome(s, src, dest, r, s3, ok)
  {
    SourceKeptChain(s, s2, s3, r);
    if ok { CpDirComplete(s, s2, s3, src, dest, r); }
  }

  /** Where the loop of `cp` stands after the entries `done`. */
  ghost predicate CpProgress(s: State, src: Path, dest: Path, r: Path, s1: State, done: set<string>, ok: bool) {
    && SourceKept(s, s1, r)
    && (forall q :: !Within(dest, q) ==> (q in s1.files <==> q in s.files))
    && (forall q :: !Within(dest, q) && q in s.files ==> s1.files[q] == s.files[q])
    && (ok ==> CopiedThrough(s, src, dest, done, s1.files))
  }

  lemma CpProgressStarts(s: State, src: Path, dest: Path, r: Path)
    requires Coherent(s)
    ensures CpProgress(s, src, dest, r, s, {}, true)
  {
    SameAtKeepsSource(s, s, r);
  }

  lemma CpStopped(s: State, src: Path, dest: Path, r: Path, s1: State, done: set<string>, names: set<string>)
    requires CpProgress(s, src, dest, r, s1, done, false)
    ensures CpProgress(s, src, dest, r, s1, names, false)
  {
  }

  lemma CpChildReady(s: State, s1: State, src: Path, dest: Path, r: Path, d: Path, depth: nat, done: set<string>,
                     n: string)
    requires CpReady(s, src, dest, r, d, depth) && !Blocked(s, src) && n in Names(s, src) && n !in done
    requires CpProgress(s, src, dest, r, s1, done, true)
    ensures CpReady(s1, src + [n], dest + [n], r, d, depth)
  {
    ChildGuard(s, src, dest, done, s1, n, r);
    NamesAreListed(s, src, n);
    var c := src + [n];
    assert Inside(src, c);
    assert forall q :: Inside(c, q) ==> Inside(src, q) && Within(r, q) && |c| < |q|;
    assert forall q :: Inside(c, q) ==> SourceAt(s, s1, q);
  }

  lemma CpChildDone(s: State, s1: State, src: Path, dest: Path, r: Path, d: Path, depth: nat, done: set<string>,
                    n: string, s2: State, ok: bool)
    requires CpReady(s, src, dest, r, d, depth) && n !in done
    requires CpProgress(s, src, dest, r, s1, done, true)
    requires CpOutcome(s1, src + [n], dest + [n], r, s2, ok)
    ensures CpProgress(s, src, dest, r, s2, done + {n}, ok)
  {
    SourceKeptChain(s, s1, s2, r);
    ChildPath(dest, n);
    forall q | !Within(dest, q) ensures !Within(dest + [n], q) {}
    if ok { NextChildCopied(s, src, dest, done, s1, n, s2.files, r); }
  }

  /** The copy of a directory is about to begin. Here too a quantifier keeps `CpReady` folded. */
  ghost predicate CpDirReady(s: State, src: Path, dest: Path, r: Path, d: Path, depth: nat) {
    forall k :: k == depth ==> CpReady(s, src, dest, r, d, k) && Exists(s, src).1 && !ReportsFile(s, src)
  }

  /** A copy came to its end. The quantifier keeps the two predicates folded until they are asked for. */
  ghost predicate CpEnds(s: State, src: Path, dest: Path, r: Path, s': State, ok: bool) {
    forall k :: k == ok ==> CpOutcome(s, src, dest, r, s', k) && CpStatus(s, src, dest, s', k)
  }

  lemma CpRefused(s: State, s2: State, src: Path, dest: Path, r: Path, d: Path, depth: nat, e: FsError)
    requires CpDirReady(s, src, dest, r, d, depth) && Mkdir(Exists(s, src).0, dest, true) == (s2, Err(e))
    ensures CpEnds(s, src, dest, r, s2, false)
  {
    assert CpReady(s, src, dest, r, d, depth);
    CpDirSteps(s, src, dest, r, d, depth);
    DestApart(r, d, dest);
    RefusedStatus(s, src, dest);
  }

  lemma CpMade(s: State, s2: State, src: Path, dest: Path, r: Path, d: Path, depth: nat)
    requires CpDirReady(s, src, dest, r, d, depth) && Mkdir(Exists(s, src).0, dest, true) == (s2, Ok(()))
    ensures Readdir(s2, src) == (s2, Ok(Names(s2, src)))
    ensures CpReady(s2, src, dest, r, d, depth) && !Blocked(s2, src) && Settled(s2, dest)
  {
    assert CpReady(s, src, dest, r, d, depth);
    CpDirListed(s, s2, src, dest, r, d, depth);
    ExistsLookup(s, src);
    MadeIsSettled(Exists(s, src).0, dest);
  }

  lemma CpDirEnded(s: State, s2: State, src: Path, dest: Path, r: Path, d: Path, depth: nat, s3: State, ok: bool)
    requires CpDirReady(s, src, dest, r, d, depth)
    requires Mkdir(Exists(s, src).0, dest, true) == (s2, Ok(())) && !Blocked(s2, src)
    requires CpProgress(s2, src, dest, r, s3, Names(s2, src), ok) && CpLoop(s2, src, dest, s3, Names(s2, src), ok)
    ensures CpEnds(s, src, dest, r, s3, ok)
  {
    assert CpReady(s, src, dest, r, d, depth);
    CpDirFinished(s, s2, src, dest, r, d, depth, s3, ok);
    DestApart(r, d, dest);
    DirectoryStatus(s, s2, src, dest, r, s3, ok);
  }

  lemma CpChildStatus(s: State, t: State, src: Path, dest: Path, r: Path, d: Path, depth: nat, done: set<string>,
                      n: string, t': State, ok: bool)
    requires CpReady(s, src, dest, r, d, depth) && CpProgress(s, src, dest, r, t, done, true) && Settled(s, dest)
    requires CpLoop(s, src, dest, t, done, true) && n !in done
    requires CpStatus(t, src + [n], dest + [n], t', ok)
    ensures CpLoop(s, src, dest, t', done + {n}, ok)
  {
    DisjointBelow(r, d, dest);
    DisjointBelow(dest, r, src);
    CpLoopStep(s, t, src, dest, r, n, done, t', ok);
  }

  /** What `mv` to a disjoint destination does to the files. */
  ghost predicate MvOutcome(s: State, src: Path, dest: Path, files: map<Path, Bytes>, ok: bool) {
    && (ok <==> CopyAllowed(s, src, dest))
    && (ok ==> MovedAcross(s, src, dest, files))
    && (ok && Removable(s, src) ==> files == Moved(s.files, src, dest))
    && (!ok ==> forall q :: q in s.files && !Within(dest, q) ==> q in files && files[q] == s.files[q])
  }

  lemma MvFinished(s: State, src: Path, dest: Path, s1: State, s2: State, r: Result<(), FsError>)
    requires Coherent(s) && Disjoint(src, dest) && CpOutcome(s, src, dest, src, s1, true) && CopyAllowed(s, src, dest)
    requires RmOutcome(s1, src, true, false, s2, r)
    ensures r == Ok(()) && MvOutcome(s, src, dest, s2.files, true)
  {
    SourceKeptReached(s, s1, src);
    CopyThenRemoveMovesAcross(s, src, dest, s1, s2);
    ExistsAnswer(s, src);
    if Removable(s, src) { TidyMovedAcross(s, src, dest, s2.files); }
  }

  /** A file that can be moved without making reads lie. */
  ghost predicate FileMovable(s: State, src: Path, dest: Path) {
    FileThere(s, src) && WriteSafe(Exists(s, src).0, dest)
  }

  lemma ReadyIsMovable(s: State, src: Path, dest: Path, depth: nat)
    requires CpReady(s, src, dest, src, dest, depth) && FileThere(s, src)
    ensures FileMovable(s, src, dest)
  {
    ExistsLookup(s, src);
    CpFileSafe(s, src, dest, Exists(s, src).0);
  }

  /**
   What one call of `rm` does. The result is decided before the call: a non-empty directory needs `recursive`, and
   without `force` everything to which the listings lead has to exist. Success removes exactly the reached paths, and a
   call that stops half-way removes no file it does not reach.
   */
  ghost predicate RmOutcome(s: State, p: Path, recursive: bool, force: bool, s': State, r: Result<(), FsError>) {
    && Coherent(s') && SameOutside(s, s', p) && s'.modified <= s.modified
    && r == RmResult(s, p, recursive, force)
    && (!Visible(s, p) || r == Err(ENOTEMPTY) ==> s' == Exists(s, p).0)
    && (r.Ok? ==> Removed(s, p, s'))
    && (forall q :: q in s.files && !Reached(s, p, q) ==> q in s'.files)
    && (Visible(s, p) && r.Ok? && Removable(s, p) ==> TidyAt(s', p))
  }

  ghost function RmResult(s: State, p: Path, recursive: bool, force: bool): Result<(), FsError> {
    if !recursive && NonEmptyDir(s, p) then Err(ENOTEMPTY)
    else if force || AllVisible(s, p) then Ok(())
    else Err(ENOENT)
  }

  /**
   A recursive `rm` succeeds exactly when it is forced or all to which the listings lead exists; success removes the
   reached paths and no live file but those, and leaves nothing live below its target exactly when no file is hidden.
   */
  lemma RmSucceedsIff(s: State, p: Path, force: bool, s': State, r: Result<(), FsError>)
    requires Coherent(s) && RmOutcome(s, p, true, force, s', r)
    ensures r.Ok? <==> force || forall q :: Visited(s, p, q) ==> Visible(s, q)
    ensures r.Ok? ==> forall q :: q in s.files ==> (q !in s'.files <==> Reached(s, p, q))
    ensures r.Ok? ==> ((forall q :: q in s'.files ==> !Within(p, q)) <==> (forall c, q :: !Hides(s, p, c, q)))
  {
    if r.Ok? { RemovalClearsIff(s, p, s'); }
  }

  /** All below the entries `names` exists. */
  ghost predicate EntriesVisible(s: State, p: Path, names: set<string>) {
    forall n :: n in names ==> AllVisible(s, p + [n])
  }

  /** The entries of `p` are about to be removed. */
  ghost predicate EntriesReady(s: State, p: Path, names: set<string>, depth: nat) {
    Coherent(s) && Shallow(s, p, depth) && names == Names(s, p)
  }

  /**
   Where the loop of `rm` stands after the entries `done` of `p`. The quantifier keeps `EntriesRemoved` folded until it
   is asked for.
   */
  ghost predicate Progress(s: State, p: Path, done: set<string>, s1: State, force: bool) {
    && s1.modified <= s.modified && (forall d :: d == done ==> EntriesRemoved(s, p, d, s1))
    && (force || EntriesVisible(s, p, done))
    && (Removable(s, p) ==> Removable(s1, p))
  }

  /** What the loop of `rm` over `names` leaves, whether it ended or was stopped by an error. */
  ghost predicate EntriesOutcome(s: State, p: Path, names: set<string>, force: bool, s1: State, ok: bool) {
    && Coherent(s1) && SameOutside(s, s1, p) && SameAt(s, s1, p) && s1.modified <= s.modified
    && (ok <==> force || EntriesVisible(s, p, names))
    && (ok ==> EntriesRemoved(s, p, names, s1))
    && (forall q :: q in s.files && !ReachedThrough(s, p, names, q) ==> q in s1.files)
    && (ok && Removable(s, p) ==> TidyAt(s1, p))
  }

  lemma ProgressStarts(s: State, p: Path, force: bool)
    requires Coherent(s)
    ensures Progress(s, p, {}, s, force)
  {
  }

  lemma ProgressEnds(s: State, p: Path, names: set<string>, s1: State, force: bool)
    requires Progress(s, p, names, s1, force)
    ensures EntriesOutcome(s, p, names, force, s1, true)
  {
    assert EntriesRemoved(s, p, names, s1);
  }

  lemma ProgressRemoved(s: State, p: Path, done: set<string>, s1: State, force: bool)
    requires Progress(s, p, done, s1, force)
    ensures EntriesRemoved(s, p, done, s1)
  {
  }

  lemma ChildReady(s: State, p: Path, names: set<string>, done: set<string>, s1: State, force: bool, n: string,
                   depth: nat)
    requires EntriesReady(s, p, names, depth) && Progress(s, p, done, s1, force) && n in names
    ensures Coherent(s1) && Shallow(s1, p + [n], depth)
  {
    ProgressRemoved(s, p, done, s1, force);
    ChildIsShallow(s, s1, p, n, depth);
  }

  /** At its turn, a child is reached and visible as it was before the loop. */
  lemma ChildAsBefore(s: State, s1: State, p: Path, done: set<string>, n: string)
    requires Coherent(s) && EntriesRemoved(s, p, done, s1) && n !in done
    ensures forall q :: Reached(s1, p + [n], q) == Reached(s, p + [n], q)
    ensures AllVisible(s1, p + [n]) == AllVisible(s, p + [n])
  {
    ChildPath(p, n);
    forall q ensures Reached(s1, p + [n], q) == Reached(s, p + [n], q) {
      SameReached(s, s1, p + [n], q);
    }
    SameAllVisible(s, s1, p + [n]);
  }

  /** A child's removal stopped, and with it the loop. */
  lemma ChildStopped(s: State, s1: State, p: Path, done: set<string>, n: string, s2: State, names: set<string>)
    requires Coherent(s) && n !in done && n in names && done <= names && Progress(s, p, done, s1, false)
    requires RmOutcome(s1, p + [n], true, false, s2, Err(ENOENT))
    ensures EntriesOutcome(s, p, names, false, s2, false)
  {
    ProgressRemoved(s, p, done, s1, false);
    InsideChild(s1, s2, p, n);
    SameOutsideChain(s, s1, s2, p);
    ChildAsBefore(s, s1, p, done, n);
    ChildLeaves(s, s1, p, done, n, s2, names);
  }

  lemma ChildLeaves(s: State, s1: State, p: Path, done: set<string>, n: string, s2: State, names: set<string>)
    requires Coherent(s) && n !in done && n in names && done <= names && EntriesRemoved(s, p, done, s1)
    requires forall q :: q in s1.files && !Reached(s1, p + [n], q) ==> q in s2.files
    ensures forall q :: q in s.files && !ReachedThrough(s, p, names, q) ==> q in s2.files
  {
    ChildAsBefore(s, s1, p, done, n);
    forall q | q in s.files && !ReachedThrough(s, p, names, q) ensures q in s2.files {
      ChildPath(p, n);
      assert !ReachedThrough(s, p, done, q);
    }
  }

  lemma ChildDone(s: State, s1: State, p: Path, done: set<string>, n: string, s2: State, force: bool)
    requires Coherent(s) && n !in done && Progress(s, p, done, s1, force)
    requires RmOutcome(s1, p + [n], true, force, s2, Ok(()))
    ensures Progress(s, p, done + {n}, s2, force)
  {
    ProgressRemoved(s, p, done, s1, force);
    NextEntryRemoved(s, p, done, s1, n, s2);
    ChildAsBefore(s, s1, p, done, n);
    if Removable(s, p) {
      ChildKeepsTidy(s1, p, n, s2, force);
      InsideChild(s1, s2, p, n);
    }
  }

  lemma ChildKeepsTidy(s1: State, p: Path, n: string, s2: State, force: bool)
    requires Removable(s1, p) && RmOutcome(s1, p + [n], true, force, s2, Ok(()))
    ensures TidyAt(s2, p)
  {
    ChildPath(p, n);
    TidyBelow(s1, p, p + [n]);
    if Visible(s1, p + [n]) {
      RemovedTidy(s1, p, p + [n], s2);
    } else {
      ExistsTidy(s1, p + [n], p);
    }
  }

  lemma ShallowAfterExists(s: State, p: Path, depth: nat)
    requires Coherent(s) && Shallow(s, p, depth)
    ensures Shallow(Exists(s, p).0, p, depth)
  {
    ExistsLookup(s, p);
  }

  /** Where `rm(p)` stands once the entries of `p`, if it is a directory, were dealt with. */
  ghost predicate EntriesDone(s: State, p: Path, s2: State, force: bool, ok: bool) {
    var (s1, found) := Exists(s, p);
    && found
    && if ReportsFile(s, p) then s2 == s1 && ok else EntriesOutcome(s1, p, Names(s1, p), force, s2, ok)
  }

  lemma RmMissing(s: State, p: Path, recursive: bool, force: bool)
    requires Coherent(s) && !Exists(s, p).1
    ensures RmOutcome(s, p, recursive, force, Exists(s, p).0, if force then Ok(()) else Err(ENOENT))
  {
    ExistsIsVisible(s, p);
    NothingRemoved(s, p);
    ExistsLookup(s, p);
    assert Visited(s, p, p);
  }

  lemma RmNotEmpty(s: State, p: Path, force: bool)
    requires Coherent(s) && NonEmptyDir(s, p)
    ensures RmOutcome(s, p, false, force, Exists(s, p).0, Err(ENOTEMPTY))
  {
    ExistsSettles(s, p);
    ExistsSameElsewhere(s, p);
  }

  /** Whether the entries of an existing `p` let the removal go on decides its result. */
  lemma EntriesDecide(s: State, p: Path, recursive: bool, force: bool, s2: State, ok: bool)
    requires Coherent(s) && EntriesDone(s, p, s2, force, ok) && (recursive || !NonEmptyDir(s, p))
    ensures RmResult(s, p, recursive, force) == if ok then Ok(()) else Err(ENOENT)
  {
    var s1 := Exists(s, p).0;
    ExistsSettles(s, p);
    ExistsIsVisible(s, p);
    ExistsKeepsVisible(s, p, p);
    ExistsKeepsReached(s, p);
    if ReportsFile(s, p) { OnlyItself(s1, p); } else { AllVisibleSplits(s1, p); }
  }

  lemma RmInterrupted(s: State, p: Path, recursive: bool, s2: State)
    requires Coherent(s) && EntriesDone(s, p, s2, false, false) && (recursive || !NonEmptyDir(s, p))
    ensures RmOutcome(s, p, recursive, false, s2, Err(ENOENT))
  {
    EntriesDecide(s, p, recursive, false, s2, false);
    EntriesLeave(s, p, false, s2, false);
    ExistsIsVisible(s, p);
  }

  /** The loop of `rm` leaves what is outside `p` and every file that `rm(p)` does not reach. */
  lemma EntriesLeave(s: State, p: Path, force: bool, s2: State, ok: bool)
    requires Coherent(s) && EntriesDone(s, p, s2, force, ok)
    ensures Coherent(s2) && SameOutside(s, s2, p) && s2.modified <= s.modified
    ensures forall q :: q in s.files && !Reached(s, p, q) ==> q in s2.files
  {
    var s1 := Exists(s, p).0;
    ExistsSettles(s, p);
    ExistsSameElsewhere(s, p);
    ExistsIsVisible(s, p);
    ExistsKeepsVisible(s, p, p);
    ExistsKeepsReached(s, p);
    if !ReportsFile(s, p) { ReachedAll(s1, p); }
    assert forall q :: SameAt(s, s1, q) && SameAt(s1, s2, q) ==> SameAt(s, s2, q);
  }

  lemma RmFinished(s: State, p: Path, recursive: bool, force: bool, s2: State)
    requires Coherent(s) && EntriesDone(s, p, s2, force, true) && (recursive || !NonEmptyDir(s, p))
    ensures RmOutcome(s, p, recursive, force, RemoveEntry(s2, p), Ok(()))
  {
    EntriesDecide(s, p, recursive, force, s2, true);
    RmRemoved(s, p, force, s2);
    EntriesLeave(s, p, force, s2, true);
    ExistsIsVisible(s, p);
    if Removable(s, p) { RmTidied(s, p, force, s2); }
  }

  lemma RmTidied(s: State, p: Path, force: bool, s2: State)
    requires Removable(s, p) && EntriesDone(s, p, s2, force, true)
    ensures TidyAt(RemoveEntry(s2, p), p)
  {
    ExistsSettles(s, p);
    ExistsTidy(s, p, p);
    ExistsIsVisible(s, p);
    ExistsKeepsVisible(s, p, p);
    EntryGoneTidy(Exists(s, p).0, p, s2);
  }

  lemma RmRemoved(s: State, p: Path, force: bool, s2: State)
    requires Coherent(s) && EntriesDone(s, p, s2, force, true)
    ensures Removed(s, p, RemoveEntry(s2, p))
  {
    ExistsSettles(s, p);
    ExistsIsVisible(s, p);
    ExistsKeepsVisible(s, p, p);
    var s1 := Exists(s, p).0;
    if ReportsFile(s, p) { FileRemoved(s1, p); } else { DirectoryRemoved(s1, p, s2); }
    RemovedAfterExists(s, p, RemoveEntry(s2, p));
  }

  /** No path that a listing inside `p` can name is longer than `depth`. */
  ghost predicate Shallow(s: State, p: Path, depth: nat) {
    && |p| <= depth
    && (forall q :: (q in s.files || q in s.basePaths || q in s.modified) && Inside(p, q) ==> |q| <= depth)
  }

  /** The length of the longest of some paths. */
  ghost function Longest(paths: set<Path>): (n: nat)
    ensures forall q :: q in paths ==> |q| <= n
  {
    if paths == {} then 0
    else
      var q :| q in paths;
      var n := Longest(paths - {q});
      if |q| > n then |q| else n
  }

  /** There is always such a bound. */
  lemma ShallowExists(s: State, p: Path) returns (depth: nat)
    ensures Shallow(s, p, depth)
  {
    depth := Longest(s.files.Keys + s.basePaths + s.modified + {p});
  }

  /** `p` exists, is a directory, and lists something. */
  ghost predicate NonEmptyDir(s: State, p: Path) {
    Exists(s, p).1 && !ReportsFile(s, p) && Names(Exists(s, p).0, p) != {}
  }

  lemma ChildIsShallow(s: State, s1: State, p: Path, n: string, depth: nat)
    requires Coherent(s) && Shallow(s, p, depth) && n in Names(s, p)
    requires SameOutside(s, s1, p) && s1.modified <= s.modified
    ensures Shallow(s1, p + [n], depth)
  {
    NamesAreListed(s, p, n);
    var c := p + [n];
    assert Inside(p, c);
    assert forall q :: Inside(c, q) ==> Inside(p, q) && |c| < |q|;
  }

  lemma InsideChild(s: State, s': State, p: Path, n: string)
    requires SameOutside(s, s', p + [n])
    ensures SameOutside(s, s', p) && SameAt(s, s', p)
  {
    ChildPath(p, n);
    assert !Within(p + [n], p);
  }

  lemma SameOutsideChain(s: State, s1: State, s2: State, p: Path)
    requires SameOutside(s, s1, p) && SameOutside(s1, s2, p) && SameAt(s, s1, p) && SameAt(s1, s2, p)
    ensures SameOutside(s, s2, p) && SameAt(s, s2, p)
  {
    assert forall q :: SameAt(s, s1, q) && SameAt(s1, s2, q) ==> SameAt(s, s2, q);
  }

  lemma EntryGoneTidy(s: State, p: Path, s1: State)
    requires Removable(s, p) && Visible(s, p) && TidyAt(s1, p)
    requires if ReportsFile(s, p) then s1 == s else EntriesRemoved(s, p, Names(s, p), s1)
    ensures TidyAt(RemoveEntry(s1, p), p)
  {
    forall q | Inside(p, q) ensures q !in s1.files && q !in s1.modified {
      if !ReportsFile(s, p) && (q in s.files || q in s.modified) {
        TidyReachesAll(s, p, q);
        ReachedSplits(s, p, q);
      }
    }
    RemoveEntryTidy(s1, p);
  }

  lemma PlaceholdersIgnoreCache(s: State, s1: State, cache: map<Path, Node>, p: Path, names: set<string>)
    requires s1 == s.(cache := s1.cache)
    ensures Placeholders(s1, cache, p, names) == Placeholders(s, cache, p, names)
  {
    forall c ensures NeedsPlaceholder(s1, cache, c) == NeedsPlaceholder(s, cache, c) {}
  }

  lemma AddDirsTwice(cache: map<Path, Node>, a: set<Path>, b: set<Path>)
    ensures AddDirs(AddDirs(cache, a), b) == AddDirs(cache, a + b)
  {
  }

  lemma PlaceholdersOne(s: State, cache: map<Path, Node>, p: Path, done: set<string>, n: string)
    requires n !in done
    ensures p + [n] !in Placeholders(s, cache, p, done)
    ensures Placeholders(s, cache, p, done + {n}) == Placeholders(s, cache, p, done) +
      (if NeedsPlaceholder(s, cache, p + [n]) then Ancestors(p + [n]) + {p + [n]} else {})
  {
    var c := p + [n];
    forall m | m in done ensures c !in Ancestors(p + [m]) + {p + [m]} {
      assert |c| == |p + [m]| && c[|p|] != (p + [m])[|p|];
    }
  }

  lemma AddOne(s: State, cache: map<Path, Node>, p: Path, done: set<string>, n: string)
    requires n !in done
    ensures var c := p + [n];
      var before := AddDirs(cache, Placeholders(s, cache, p, done));
      var after := AddDirs(cache, Placeholders(s, cache, p, done + {n}));
      && (c in before <==> c in cache)
      && after == (if NeedsPlaceholder(s, cache, c) then CacheMkdirs(before, c) else before)
  {
    var c := p + [n];
    PlaceholdersOne(s, cache, p, done, n);
    AddDirsTwice(cache, Placeholders(s, cache, p, done), Ancestors(c) + {c});
  }

  class ConvexSessionFs {
    const allowWrites: bool
    const reencode: Bytes -> Bytes

    // the remote overlay of the session
    var files: map<Path, Bytes>
    var markers: set<Path>
    const basePaths: set<Path>

    // the client
    var cache: map<Path, Node>
    var loadedFiles: set<Path>
    var loadedDirs: set<Path>
    var notExistsAsFile: set<Path>
    var notExistsAsDir: set<Path>
    var modified: set<Path>
    var deleted: set<Path>

    function S(): State
      reads this
    {
      State(files, markers, basePaths, cache, loadedFiles, loadedDirs, notExistsAsFile, notExistsAsDir,
            modified, deleted)
    }

    constructor (allowWrites: bool, reencode: Bytes -> Bytes,
                 files: map<Path, Bytes>, markers: set<Path>, basePaths: set<Path>)
      ensures S() == Opened(files, markers, basePaths)
      ensures this.allowWrites == allowWrites && this.reencode == reencode
    {
      this.allowWrites, this.reencode := allowWrites, reencode;
      this.files, this.markers, this.basePaths := files, markers, basePaths;
      cache := map[[] := Dir];
      loadedFiles, loadedDirs := {}, {};
      notExistsAsFile, notExistsAsDir := {}, {};
      modified, deleted := {}, {};
    }

    // -------------------------------------------------------------- lookups

    method EnsureFile(p: Path) returns (loaded: bool)
      modifies this
      ensures (S(), loaded) == EnsureFileLoaded(old(S()), p)
    {
      if p in deleted { return false; }
      if p in modified { return true; }
      if p in loadedFiles { return true; }
      if p in notExistsAsFile { return false; }
      if p !in files {
        notExistsAsFile := notExistsAsFile + {p};
        return false;
      }
      loadedFiles := loadedFiles + {p};
      cache := CacheWrite(cache, p, files[p]);
      return true;
    }

    method EnsureDir(p: Path) returns (loaded: bool)
      modifies this
      ensures (S(), loaded) == EnsureDirLoaded(old(S()), p)
    {
      if p in deleted { return false; }
      if p in modified { return true; }
      if p in loadedDirs { return true; }
      if p in notExistsAsDir { return false; }
      ghost var s := S();
      var names := Listing(S(), p);
      if names == {} && !StatIsDirectory(S(), p) {
        if p != [] {
          notExistsAsDir := notExistsAsDir + {p};
          return false;
        }
      }
      if p !in cache {
        cache := CacheMkdirs(cache, p);
      }
      ghost var s1 := S();
      CachePlaceholders(p, names);
      PlaceholdersIgnoreCache(s, s1, s1.cache, p, names);
      assert S() == s.(cache := AddDirs(s1.cache, Placeholders(s, s1.cache, p, names)));
      loadedDirs := loadedDirs + {p};
      return true;
    }

    /** The loop of `ensureDirLoaded` over the listed entries. */
    method CachePlaceholders(p: Path, names: set<string>)
      modifies this`cache
      ensures cache == AddDirs(old(cache), Placeholders(old(S()), old(cache), p, names))
    {
      ghost var s := S();
      var rest := names;
      while rest != {}
        invariant rest <= names
        invariant cache == AddDirs(s.cache, Placeholders(s, s.cache, p, names - rest))
        modifies this`cache
      {
        var name :| name in rest;
        var child := p + [name];
        AddOne(s, s.cache, p, names - rest, name);
        assert names - (rest - {name}) == (names - rest) + {name};
        rest := rest - {name};
        if child in modified || child in loadedFiles || child in loadedDirs { continue; }
        if child !in files {
          if child !in cache {
            cache := CacheMkdirs(cache, child);
          }
        }
      }
      assert names - {} == names;
    }

    method Read(p: Path) returns (r: Result<Bytes, FsError>)
      modifies this
      ensures (S(), r) == ReadFileBuffer(old(S()), p)
    {
      if p in deleted { return Err(ENOENT); }
      if p in modified { return CacheRead(cache, p); }
      var loaded := EnsureFile(p);
      if !loaded { return Err(ENOENT); }
      return CacheRead(cache, p);
    }

    method PathExists(p: Path) returns (found: bool)
      modifies this
      ensures (S(), found) == Exists(old(S()), p)
    {
      if p in deleted { return false; }
      if p in modified { return p in cache; }
      if p in loadedFiles || p in loadedDirs { return p in cache; }
      if p in notExistsAsFile && p in notExistsAsDir { return false; }
      var isFile := EnsureFile(p);
      if isFile { return true; }
      found := EnsureDir(p);
    }

    method StatPath(p: Path) returns (r: Result<bool, FsError>)
      modifies this
      ensures (S(), r) == Stat(old(S()), p)
    {
      if p in deleted { return Err(ENOENT); }
      if p in modified || p in loadedFiles || p in loadedDirs { return CacheStat(cache, p); }
      var isFile := EnsureFile(p);
      if isFile { return CacheStat(cache, p); }
      var isDir := EnsureDir(p);
      if isDir { return CacheStat(cache, p); }
      return Err(ENOENT);
    }

    method List(p: Path) returns (r: Result<set<string>, FsError>)
      modifies this
      ensures (S(), r) == Readdir(old(S()), p)
    {
      if p in deleted { return Err(ENOENT); }
      var loaded := EnsureDir(p);
      if !loaded && p != [] { return Err(ENOENT); }
      return Ok(RemoteNames(S(), p) + LocalNames(S(), p));
    }

    // -------------------------------------------------------------- writes

    method MarkParents(p: Path)
      modifies this
      ensures S() == MarkParentsModified(old(S()), p)
    {
      ghost var s := S();
      ghost var marked: set<Path> := {};
      var parent := Parent(p);
      while parent != [] && parent !in modified
        invariant S() == Marked(s, marked)
        invariant marked + Marks(s.modified, parent) == Marks(s.modified, Parent(p))
        invariant forall a :: a in marked ==> |a| > |parent|
        decreases |parent|
      {
        StateMarkOne(s, marked, parent);
        modified := modified + {parent};
        loadedDirs := loadedDirs + {parent};
        deleted := deleted - {parent};
        notExistsAsDir := notExistsAsDir - {parent};
        marked := marked + {parent};
        parent := Parent(parent);
      }
      assert parent !in marked;
    }

    /** The first part of `writeFile`: the parent directory is looked up, and made in the cache if need be. */
    method PrepareParent(p: Path)
      modifies this
      ensures S() == ParentPrepared(old(S()), p)
    {
      var parent := Parent(p);
      if parent != [] {
        var _ := EnsureDir(parent);
        if parent !in cache {
          cache := CacheMkdirs(cache, parent);
        }
      }
    }

    method Write(p: Path, content: Bytes) returns (r: Result<(), FsError>)
      modifies this
      ensures !allowWrites ==> r == Err(EROFS) && S() == old(S())
      ensures allowWrites ==> r == Ok(()) && S() == WriteFile(old(S()), p, content)
    {
      if !allowWrites { return Err(EROFS); }
      PrepareParent(p);
      cache := CacheWrite(cache, p, content);
      files, markers := files[p := content], markers - {p};
      modified := modified + {p};
      MarkParents(p);
      deleted := deleted - {p};
      notExistsAsFile := notExistsAsFile - {p};
      notExistsAsDir := notExistsAsDir - {p};
      return Ok(());
    }

    method Append(p: Path, content: Bytes) returns (r: Result<(), FsError>)
      modifies this
      ensures !allowWrites ==> r == Err(EROFS) && S() == old(S())
      ensures allowWrites ==> (S(), r) == AppendFile(old(S()), p, content, reencode)
    {
      if !allowWrites { return Err(EROFS); }
      if p !in modified {
        var _ := EnsureFile(p);
      }
      if p in cache {
        match cache[p] {
          case Dir => return Err(EISDIR);
          case File(before) =>
            cache := cache[p := File(before + content)];
            files, markers := files[p := reencode(before + content)], markers - {p};
        }
      } else {
        var _ := Write(p, content);
      }
      modified := modified + {p};
      deleted := deleted - {p};
      return Ok(());
    }

    method MakeDir(p: Path, recursive: bool) returns (r: Result<(), FsError>)
      modifies this
      ensures !allowWrites ==> r == Err(EROFS) && S() == old(S())
      ensures allowWrites ==> (S(), r) == Mkdir(old(S()), p, recursive)
      decreases |p|
    {
      if !allowWrites { return Err(EROFS); }
      var found := PathExists(p);
      if found {
        return if recursive then Ok(()) else Err(EEXIST);
      }
      var parent := Parent(p);
      if parent != [] {
        if recursive {
          var made := MakeDir(parent, true);
          if made.Err? { return made; }
        } else {
          var parentExists := PathExists(parent);
          if !parentExists { return Err(ENOENT); }
        }
      }
      if p in cache { return Err(EEXIST); }
      if parent != [] && parent !in cache { return Err(ENOENT); }
      cache := cache[p := Dir];
      modified := modified + {p};
      loadedDirs := loadedDirs + {p};
      deleted := deleted - {p};
      notExistsAsFile := notExistsAsFile - {p};
      notExistsAsDir := notExistsAsDir - {p};
      return Ok(());
    }

    // -------------------------------------------------------------- removal

    /** `rm`. `depth` bounds the length of the paths that listings can name, so that the recursion ends. */
    method Rm(p: Path, recursive: bool, force: bool, ghost depth: nat) returns (r: Result<(), FsError>)
      requires Coherent(S()) && Shallow(S(), p, depth)
      modifies this
      ensures !allowWrites ==> r == Err(EROFS) && S() == old(S())
      ensures allowWrites ==> RmOutcome(old(S()), p, recursive, force, S(), r)
      decreases depth - |p|, 2
    {
      if !allowWrites { return Err(EROFS); }
      ghost var s := S();
      ExistsSettles(s, p);
      var found := PathExists(p);
      if !found {
        RmMissing(s, p, recursive, force);
        return if force then Ok(()) else Err(ENOENT);
      }
      ghost var s1 := S();
      var stat := StatPath(p);
      assert S() == s1 && stat == Ok(ReportsFile(s, p));
      if stat == Ok(false) {
        var children := List(p);
        assert S() == s1 && children == Ok(Names(s1, p));
        if children.value != {} {
          if !recursive {
            RmNotEmpty(s, p, force);
            return Err(ENOTEMPTY);
          }
        }
        ShallowAfterExists(s, p, depth);
        var cleared := RmEntries(p, children.value, force, depth);
        if cleared.Err? {
          RmInterrupted(s, p, recursive, S());
          return cleared;
        }
      }
      RmFinished(s, p, recursive, force, S());
      DropEntry(p);
      return Ok(());
    }

    method DropEntry(p: Path)
      modifies this
      ensures S() == RemoveEntry(old(S()), p)
    {
      files, markers := files - {p}, markers + {p};
      deleted := deleted + {p};
      modified := modified - {p};
      loadedFiles := loadedFiles - {p};
      loadedDirs := loadedDirs - {p};
      cache := CacheRm(cache, p);
    }

    /** The loop of `rm` over the children of a directory, in any order. */
    method RmEntries(p: Path, names: set<string>, force: bool, ghost depth: nat) returns (r: Result<(), FsError>)
      requires allowWrites && EntriesReady(S(), p, names, depth)
      modifies this
      ensures EntriesOutcome(old(S()), p, names, force, S(), r.Ok?)
      ensures r.Err? ==> r == Err(ENOENT)
      decreases depth - |p|, 1
    {
      ghost var s, done := S(), {};
      var rest := names;
      r := Ok(());
      ProgressStarts(s, p, force);
      while rest != {}
        invariant rest <= names && done == names - rest && r == Ok(())
        invariant Progress(s, p, done, S(), force)
        decreases rest
      {
        var name :| name in rest;
        r := RmChild(p, name, force, depth, s, done, names);
        if r.Err? { return; }
        rest, done := rest - {name}, done + {name};
      }
      assert done == names;
      ProgressEnds(s, p, names, S(), force);
    }

    /** One turn of the loop: remove the child `name` of `p`. `s` is the state before the loop, `done` what it did. */
    method RmChild(p: Path, name: string, force: bool, ghost depth: nat, ghost s: State, ghost done: set<string>,
                   ghost names: set<string>) returns (r: Result<(), FsError>)
      requires allowWrites && EntriesReady(s, p, names, depth)
      requires name in names && name !in done && done <= names && Progress(s, p, done, S(), force)
      modifies this
      ensures r.Ok? ==> r == Ok(()) && Progress(s, p, done + {name}, S(), force)
      ensures r.Err? ==> r == Err(ENOENT) && EntriesOutcome(s, p, names, force, S(), false)
      decreases depth - |p|, 0
    {
      ghost var before := S();
      ChildReady(s, p, names, done, before, force, name, depth);
      r := Rm(p + [name], true, force, depth);
      if r.Ok? { ChildDone(s, before, p, done, name, S(), force); }
      else { ChildStopped(s, before, p, done, name, S(), names); }
    }

    // -------------------------------------------------------------- copies and moves

    /**
     `cp`. The ghost arguments are the outermost source and destination, and the bound of `Rm`. A file is written to any
     destination, also onto itself; a directory goes to a disjoint one.
     */
    method Cp(src: Path, dest: Path, recursive: bool, ghost r: Path, ghost d: Path, ghost depth: nat)
      returns (result: Result<(), FsError>)
      requires FileThere(S(), src) || CpReady(S(), src, dest, r, d, depth)
      modifies this
      ensures CpReady(old(S()), src, dest, r, d, depth) ==> CpOutcome(old(S()), src, dest, r, S(), result.Ok?)
      ensures CpReady(old(S()), src, dest, r, d, depth) && allowWrites && recursive ==>
        CpStatus(old(S()), src, dest, S(), result.Ok?)
      ensures !allowWrites ==> result == Err(EROFS)
      ensures allowWrites && !Exists(old(S()), src).1 ==> result == Err(ENOENT) && files == old(files)
      ensures allowWrites && FileThere(old(S()), src) ==>
        result.Ok? && src in old(files) && S() == WriteFile(Exists(old(S()), src).0, dest, old(files)[src])
      ensures allowWrites && Exists(old(S()), src).1 && !ReportsFile(old(S()), src) && !recursive ==>
        result == Err(EISDIR) && files == old(files)
      decreases depth - |src|, 4
    {
      ghost var s, ready := S(), CpReady(S(), src, dest, r, d, depth);
      ExistsSettles(s, src);
      if ready { CpStart(s, src, dest, r, d, depth); }
      if !allowWrites { return Err(EROFS); }
      var found := PathExists(src);
      if !found {
        MissingStatus(s, src, dest);
        return Err(ENOENT);
      }
      ghost var s1 := S();
      var stat := StatPath(src);
      assert S() == s1 && stat == Ok(ReportsFile(s, src));
      if stat == Ok(true) {
        FileCopySteps(s, src);
        if ready { CpFileSteps(s, src, dest, r, d, depth); }
        var content := Read(src);
        assert S() == s1 && content == Ok(s.files[src]);
        result := Write(dest, content.value);
        if ready { FileStatus(s, src, dest, content.value); }
      } else {
        if !recursive { return Err(EISDIR); }
        result := CpDirectory(src, dest, r, d, depth, s);
      }
    }

    /** The directory branch of `cp`. `s` is the state before its lookup of the source. */
    method CpDirectory(src: Path, dest: Path, ghost r: Path, ghost d: Path, ghost depth: nat, ghost s: State)
      returns (result: Result<(), FsError>)
      requires allowWrites && CpDirReady(s, src, dest, r, d, depth)
      requires S() == Exists(s, src).0
      modifies this
      ensures CpEnds(s, src, dest, r, S(), result.Ok?)
      decreases depth - |src|, 3
    {
      result := MakeDir(dest, true);
      if result.Err? {
        CpRefused(s, S(), src, dest, r, d, depth, result.error);
        return;
      }
      result := CpChildren(src, dest, r, d, depth, s);
    }

    /** The rest of the directory branch, once the destination was made. */
    method CpChildren(src: Path, dest: Path, ghost r: Path, ghost d: Path, ghost depth: nat, ghost s: State)
      returns (result: Result<(), FsError>)
      requires allowWrites && CpDirReady(s, src, dest, r, d, depth)
      requires Mkdir(Exists(s, src).0, dest, true) == (S(), Ok(()))
      modifies this
      ensures CpEnds(s, src, dest, r, S(), result.Ok?)
      decreases depth - |src|, 2
    {
      ghost var s2 := S();
      CpMade(s, s2, src, dest, r, d, depth);
      var children := List(src);
      assert S() == s2 && children == Ok(Names(s2, src));
      result := CpEntries(src, dest, children.value, r, d, depth);
      CpDirEnded(s, s2, src, dest, r, d, depth, S(), result.Ok?);
    }

    /** The loop of `cp` over the children of a directory, in any order. */
    method CpEntries(src: Path, dest: Path, names: set<string>, ghost r: Path, ghost d: Path, ghost depth: nat)
      returns (result: Result<(), FsError>)
      requires allowWrites && CpReady(S(), src, dest, r, d, depth) && !Blocked(S(), src) && names == Names(S(), src)
      requires Settled(S(), dest)
      modifies this
      ensures CpProgress(old(S()), src, dest, r, S(), names, result.Ok?)
      ensures CpLoop(old(S()), src, dest, S(), names, result.Ok?)
      decreases depth - |src|, 1
    {
      ghost var s, done := S(), {};
      var rest := names;
      CpProgressStarts(s, src, dest, r);
      CpLoopStarts(s, src, dest);
      while rest != {}
        invariant done + rest == names && done !! rest
        invariant CpProgress(s, src, dest, r, S(), done, true) && CpLoop(s, src, dest, S(), done, true)
        decreases rest
      {
        var name :| name in rest;
        result := CpChild(src, dest, name, r, d, depth, s, done);
        rest, done := rest - {name}, done + {name};
        if result.Err? {
          CpStopped(s, src, dest, r, S(), done, names);
          CpLoopStopped(s, src, dest, S(), done, names);
          return;
        }
      }
      assert done == names;
      return Ok(());
    }

    method CpChild(src: Path, dest: Path, name: string, ghost r: Path, ghost d: Path, ghost depth: nat,
                   ghost s: State, ghost done: set<string>) returns (result: Result<(), FsError>)
      requires allowWrites && CpReady(s, src, dest, r, d, depth) && !Blocked(s, src)
      requires name in Names(s, src) && name !in done && CpProgress(s, src, dest, r, S(), done, true)
      requires CpLoop(s, src, dest, S(), done, true) && Settled(s, dest)
      modifies this
      ensures CpProgress(s, src, dest, r, S(), done + {name}, result.Ok?)
      ensures CpLoop(s, src, dest, S(), done + {name}, result.Ok?)
      decreases depth - |src|, 0
    {
      ghost var before := S();
      CpChildReady(s, before, src, dest, r, d, depth, done, name);
      result := Cp(src + [name], dest + [name], true, r, d, depth);
      CpChildDone(s, before, src, dest, r, d, depth, done, name, S(), result.Ok?);
      CpChildStatus(s, before, src, dest, r, d, depth, done, name, S(), result.Ok?);
    }

    /**
     `mv`: a copy and then a recursive removal. A directory goes to a disjoint destination: this succeeds exactly when
     the copy is allowed. Success moves all to which the listings of the source lead, from a tidy source every file of
     it; on failure nothing outside the destination changed, so every file is still at its old place. A file goes
     anywhere; when it is moved onto itself, it is lost.
     */
    method Mv(src: Path, dest: Path, ghost depth: nat) returns (result: Result<(), FsError>)
      requires FileMovable(S(), src, dest) || CpReady(S(), src, dest, src, dest, depth)
      modifies this
      ensures Coherent(S())
      ensures !allowWrites ==> result == Err(EROFS)
      ensures allowWrites && FileMovable(old(S()), src, dest) ==>
        result == Ok(()) && src in old(files) && files == old(files)[dest := old(files)[src]] - {src}
      ensures allowWrites && CpReady(old(S()), src, dest, src, dest, depth) ==>
        MvOutcome(old(S()), src, dest, files, result.Ok?)
    {
      ghost var s, ready := S(), CpReady(S(), src, dest, src, dest, depth);
      if ready && FileThere(s, src) { ReadyIsMovable(s, src, dest, depth); }
      if !allowWrites { return Err(EROFS); }
      result := Cp(src, dest, true, src, dest, depth);
      if result.Err? { return; }
      ghost var s1 := S();
      if FileMovable(s, src, dest) { FileCopyCoherent(s, src, dest); }
      ghost var bound := ShallowExists(s1, src);
      result := Rm(src, true, false, bound);
      if FileMovable(s, src, dest) { FileMoved(s, src, dest, S(), result); }
      if ready { MvFinished(s, src, dest, s1, S(), result); }
    }
  }
}
