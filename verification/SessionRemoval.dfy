/**
 What recursive removal does. `Visited` says to which paths the listings lead, `Reached` which of them one recursive
 `rm` removes, in every coherent state; `Tidy` is the condition, kept by reads, guarded writes and `rm`, under which it
 reaches everything below its target.
 */
module SessionRemoval {
  import opened Wrappers
  import opened SessionState
  import opened SessionCoherence
  import opened SessionVisible

  // ---------------------------------------------------------------- which paths rm reaches

  /** What `stat` reports: cached kind when tracked, otherwise whether the remote has a file there. */
  ghost predicate ReportsFile(s: State, c: Path) {
    if Tracked(s, c) then CachedFile(s, c) else c in s.files
  }

  /** `rm` does not look inside `c`: the client believes it deleted, or takes it for a file. */
  ghost predicate Blocked(s: State, c: Path) {
    c in s.deleted || ReportsFile(s, c)
  }

  /** The parent's listing names `c`. */
  ghost predicate Listed(s: State, c: Path) {
    (c !in s.deleted && (c in s.files || Below(s, c))) || c in s.modified
  }

  ghost predicate Visited(s: State, p: Path, q: Path) {
    && Within(p, q)
    && (forall i :: |p| <= i < |q| ==> !Blocked(s, q[..i]))
    && (forall i :: |p| < i <= |q| ==> Listed(s, q[..i]))
  }

  /** `rm` gets to `q`: the listings lead to it, and `exists` confirms every path from `p` down to it. */
  ghost predicate Reached(s: State, p: Path, q: Path) {
    Visited(s, p, q) && forall i :: |p| <= i <= |q| ==> Visible(s, q[..i])
  }

  /** No listing below `p` leads to a path that does not exist. */
  ghost predicate AllVisible(s: State, p: Path) {
    forall q :: Visited(s, p, q) ==> Visible(s, q)
  }

  /** A prefix of a visited path is visited. */
  lemma VisitedPrefix(s: State, p: Path, q: Path, i: nat)
    requires Visited(s, p, q) && |p| <= i <= |q|
    ensures Visited(s, p, q[..i])
  {
    assert forall j :: 0 <= j <= i ==> q[..i][..j] == q[..j];
  }

  lemma ReachedWhenVisible(s: State, p: Path, q: Path)
    requires AllVisible(s, p)
    ensures Reached(s, p, q) <==> Visited(s, p, q)
  {
    if Visited(s, p, q) {
      forall i | |p| <= i <= |q| ensures Visible(s, q[..i]) {
        VisitedPrefix(s, p, q, i);
      }
    }
  }

  /** At path `q` both states agree; only a cache entry may have been added. */
  ghost predicate SameAt(s: State, s': State, q: Path) {
    && (q in s.files <==> q in s'.files)
    && (q in s.files ==> s'.files[q] == s.files[q])
    && (q in s.modified <==> q in s'.modified)
    && (q in s.deleted <==> q in s'.deleted)
    && (q in s.markers <==> q in s'.markers)
    && (q in s.loadedFiles <==> q in s'.loadedFiles)
    && (q in s.loadedDirs <==> q in s'.loadedDirs)
    && (q in s.notExistsAsFile <==> q in s'.notExistsAsFile)
    && (q in s.notExistsAsDir <==> q in s'.notExistsAsDir)
    && (q in s.cache ==> q in s'.cache && s'.cache[q] == s.cache[q])
  }

  /** Outside `p`, nothing changed; and no file changed its content. */
  ghost predicate SameOutside(s: State, s': State, p: Path) {
    && s'.basePaths == s.basePaths
    && (forall q :: !Within(p, q) ==> SameAt(s, s', q))
    && (forall q :: q in s'.files ==> q in s.files && s.files[q] == s'.files[q])
  }

  /** `s'` is `s` after `rm(p, recursive)` went through. */
  ghost predicate Removed(s: State, p: Path, s': State) {
    && Coherent(s')
    && SameOutside(s, s', p)
    && (forall q :: q in s'.files <==> q in s.files && !Reached(s, p, q))
    && (forall q :: q in s'.modified <==> q in s.modified && !Reached(s, p, q))
    && (forall q :: q in s'.deleted <==> q in s.deleted || Reached(s, p, q))
    && (forall q :: q in s'.markers <==> q in s.markers || Reached(s, p, q))
  }

  // ---------------------------------------------------------------- exactness

  /** A file at or below `p` that `rm(p)` cannot reach because of `c` above it, which it does not see or not enter. */
  ghost predicate Hides(s: State, p: Path, c: Path, q: Path) {
    q in s.files && Within(p, c) && Inside(c, q) && (Blocked(s, c) || !Visible(s, c))
  }

  lemma PrefixFacts(q: Path, i: nat)
    requires i <= |q|
    ensures Within(q[..i], q) && (i < |q| ==> Inside(q[..i], q))
  {
  }

  lemma LiveFileReached(s: State, p: Path, q: Path)
    requires Coherent(s) && q in s.files && Within(p, q)
    ensures Reached(s, p, q) <==> !exists c :: Hides(s, p, c, q)
  {
    if c :| Hides(s, p, c, q) {
      assert q[..|c|] == c && |p| <= |c| < |q|;
    } else {
      forall i | |p| <= i < |q| ensures !Blocked(s, q[..i]) && Visible(s, q[..i]) {
        PrefixFacts(q, i);
        assert !Hides(s, p, q[..i], q);
      }
      LiveIsVisible(s, q);
      assert q[..|q|] == q;
      forall i | |p| < i <= |q| ensures Listed(s, q[..i]) {
        PrefixFacts(q, i);
      }
    }
  }

  /**
   Exactly when a recursive removal of `p` leaves no live file at or below `p`: nothing above one of them is blocked or
   invisible.
   */
  lemma RemovalClearsIff(s: State, p: Path, s': State)
    requires Coherent(s) && Removed(s, p, s')
    ensures (forall q :: q in s'.files ==> !Within(p, q)) <==> (forall c, q :: !Hides(s, p, c, q))
    ensures forall q :: q in s.files && !Within(p, q) ==> q in s'.files && s'.files[q] == s.files[q]
  {
    forall q | q in s.files && Within(p, q)
      ensures Reached(s, p, q) <==> !exists c :: Hides(s, p, c, q)
    {
      LiveFileReached(s, p, q);
    }
    if c, q :| Hides(s, p, c, q) {
      assert Within(p, q);
      assert q in s'.files;
    }
  }

  // ---------------------------------------------------------------- tidiness

  /** Every base file is live or marked, and every marker was made by this client. */
  ghost predicate MarkersOwned(s: State, p: Path) {
    && (forall q :: q in s.basePaths && Within(p, q) ==> q in s.files || q in s.markers)
    && (forall q :: q in s.markers && Within(p, q) ==> q in s.deleted || q in s.modified)
  }

  /** A path known not to be a directory has nothing below it that a listing would show. */
  ghost predicate KnownEmpty(s: State, p: Path) {
    forall d :: d in s.notExistsAsDir && Within(p, d) ==> d in s.modified || d in s.deleted || !Below(s, d)
  }

  /** Below a deleted path nothing is live and nothing is modified. */
  ghost predicate DeletedEmpty(s: State, p: Path) {
    forall c, q :: c in s.deleted && Within(p, c) && Inside(c, q) ==> q !in s.files && q !in s.modified
  }

  /** Below a live file nothing is live and nothing is modified. */
  ghost predicate FilesAreLeaves(s: State, p: Path) {
    forall c, q :: c in s.files && Within(p, c) && Inside(c, q) ==> q !in s.files && q !in s.modified
  }

  /** The parent of a modified path is modified, as `markParentsModified` needs to stop early. */
  ghost predicate ModifiedClosed(s: State, p: Path) {
    forall q :: q in s.modified && Inside(p, q) && |q| >= 2 ==> Parent(q) in s.modified
  }

  /** A live file is not taken for a directory. */
  ghost predicate FilesShow(s: State, p: Path) {
    && (forall c :: c in s.files && Within(p, c) && c in s.loadedDirs ==> CachedFile(s, c))
    && (forall c, q :: c in s.files && Within(p, c) && c !in s.modified && Inside(c, q) ==> q !in s.basePaths)
  }

  ghost predicate TidyAt(s: State, p: Path) {
    && Coherent(s) && MarkersOwned(s, p) && KnownEmpty(s, p) && DeletedEmpty(s, p)
    && FilesAreLeaves(s, p) && ModifiedClosed(s, p) && FilesShow(s, p)
  }

  ghost predicate Tidy(s: State) {
    TidyAt(s, []) && [] !in s.deleted && [] !in s.files && [] !in s.modified && [] !in s.notExistsAsDir
  }

  /** The condition under which a recursive removal of `p` is sure to succeed and to be exact. */
  ghost predicate Removable(s: State, p: Path) {
    TidyAt(s, p) && p != [] && [] !in s.files
  }

  lemma TidyBelow(s: State, p: Path, q: Path)
    requires TidyAt(s, p) && Within(p, q)
    ensures TidyAt(s, q)
  {
    assert forall r :: Within(q, r) ==> Within(p, r);
    assert forall r :: Inside(q, r) ==> Inside(p, r);
  }

  /** In a tidy state the listings lead to every live and every modified path. */
  lemma TidyVisitsAll(s: State, p: Path, q: Path)
    requires TidyAt(s, p) && p !in s.deleted && p != []
    requires q in s.files || q in s.modified
    requires Within(p, q)
    ensures Visited(s, p, q)
  {
    forall i | |p| <= i < |q| ensures !Blocked(s, q[..i]) {
      PrefixFacts(q, i);
      assert Within(p, q[..i]);
    }
    forall i | |p| < i <= |q| ensures Listed(s, q[..i]) {
      PrefixFacts(q, i);
      assert Within(p, q[..i]);
      if q in s.modified {
        ModifiedChain(s, p, q, i);
      } else if q[..i] == q {
        assert q !in s.deleted;
      } else {
        assert Inside(q[..i], q);
        assert q[..i] !in s.deleted;
      }
    }
  }

  lemma {:induction false} ModifiedChain(s: State, p: Path, q: Path, i: nat)
    requires ModifiedClosed(s, p) && q in s.modified && Within(p, q)
    requires |p| <= i <= |q| && i >= 1
    ensures q[..i] in s.modified
    decreases |q| - i
  {
    if i == |q| {
      assert q[..i] == q;
    } else {
      ModifiedChain(s, p, q, i + 1);
      assert Parent(q[..i + 1]) == q[..i];
      assert Inside(p, q[..i + 1]);
    }
  }

  /** A live file below a directory, and a base file deeper than its children, has its first segment listed. */
  lemma FirstSegmentListed(s: State, c: Path, q: Path)
    requires Inside(c, q) && (q in s.files || (q in s.basePaths && |q| > |c| + 1))
    ensures q[|c|] in Listing(s, c)
  {
    var d := c + [q[|c|]];
    assert q == d || Inside(d, q);
  }

  /** A directory with an empty listing that still has something below it has a base file directly in it. */
  lemma EmptyListing(s: State, c: Path) returns (q: Path)
    requires Below(s, c) && Listing(s, c) == {}
    ensures q in s.basePaths && Inside(c, q) && Parent(q) == c
  {
    if x :| x in s.files && Inside(c, x) {
      q := x;
      FirstSegmentListed(s, c, x);
    } else {
      q :| q in s.basePaths && Inside(c, q);
      if |q| > |c| + 1 { FirstSegmentListed(s, c, q); }
    }
  }

  /** In a tidy state whatever a listing names exists. */
  lemma TidyVisible(s: State, c: Path)
    requires TidyAt(s, c) && Listed(s, c) && c != []
    ensures Visible(s, c)
  {
    assert Within(c, c);
    if !Tracked(s, c) && c !in s.files && Listing(s, c) == {} {
      var q := EmptyListing(s, c);
      assert Within(c, q);
    }
  }

  lemma TidyAllVisible(s: State, p: Path)
    requires TidyAt(s, p) && p != [] && Visible(s, p)
    ensures AllVisible(s, p)
  {
    forall q | Visited(s, p, q) ensures Visible(s, q) {
      if q != p {
        assert q[..|q|] == q;
        TidyBelow(s, p, q);
        TidyVisible(s, q);
      }
    }
  }

  /** In a tidy state, `rm` reaches every live and every modified path below its target. */
  lemma TidyReachesAll(s: State, p: Path, q: Path)
    requires TidyAt(s, p) && p !in s.deleted && p != []
    requires q in s.files || q in s.modified
    requires Within(p, q)
    ensures Reached(s, p, q)
  {
    TidyVisitsAll(s, p, q);
    assert q[..|p|] == p && (q == p || Inside(p, q));
    if q in s.modified { ModifiedChain(s, p, q, |p|); }
    assert Listed(s, p);
    TidyVisible(s, p);
    TidyAllVisible(s, p);
    ReachedWhenVisible(s, p, q);
  }

  /** From a tidy state a recursive removal is exact: nothing is left below `p`, everything else is unchanged. */
  lemma TidyRemovalIsExact(s: State, p: Path, s': State)
    requires TidyAt(s, p) && p !in s.deleted && p != [] && Removed(s, p, s')
    ensures forall q :: q in s'.files <==> q in s.files && !Within(p, q)
    ensures forall q :: q in s'.files ==> s'.files[q] == s.files[q]
    ensures forall q :: q in s'.modified <==> q in s.modified && !Within(p, q)
  {
    forall q | (q in s.files || q in s.modified) && Within(p, q) ensures Reached(s, p, q) {
      TidyReachesAll(s, p, q);
    }
  }

  // ---------------------------------------------------------------- how the recursion composes

  lemma SameReports(s: State, s': State, c: Path)
    requires Coherent(s) && Coherent(s') && SameAt(s, s', c)
    ensures ReportsFile(s', c) == ReportsFile(s, c) && Blocked(s', c) == Blocked(s, c)
  {
  }

  lemma SameListed(s: State, s': State, p: Path, c: Path)
    requires s'.basePaths == s.basePaths && (forall q :: Within(p, q) ==> SameAt(s, s', q)) && Within(p, c)
    ensures Listed(s', c) == Listed(s, c)
  {
    assert forall q :: Inside(c, q) ==> Within(p, q);
    assert SameAt(s, s', c);
  }

  lemma SameVisited(s: State, s': State, p: Path, q: Path)
    requires Coherent(s) && Coherent(s') && s'.basePaths == s.basePaths
    requires forall q :: Within(p, q) ==> SameAt(s, s', q)
    ensures Visited(s', p, q) == Visited(s, p, q)
  {
    if Within(p, q) {
      forall i | |p| <= i <= |q|
        ensures Blocked(s', q[..i]) == Blocked(s, q[..i]) && Listed(s', q[..i]) == Listed(s, q[..i])
      {
        assert Within(p, q[..i]);
        SameReports(s, s', q[..i]);
        SameListed(s, s', p, q[..i]);
      }
    }
  }

  lemma SameVisible(s: State, s': State, p: Path, c: Path)
    requires Coherent(s) && Coherent(s') && s'.basePaths == s.basePaths
    requires (forall q :: Within(p, q) ==> SameAt(s, s', q)) && Within(p, c)
    ensures Visible(s', c) == Visible(s, c)
  {
    assert SameAt(s, s', c);
    assert forall q :: Inside(c, q) ==> Within(p, q);
    forall n ensures n in Listing(s', c) <==> n in Listing(s, c) {
      var d := c + [n];
      assert Within(p, d) && SameAt(s, s', d);
      assert forall q :: Inside(d, q) ==> Within(p, q);
    }
    assert Listing(s', c) == Listing(s, c);
    forall q | q != [] && Parent(q) == c
      ensures q in s'.files.Keys + s'.markers + s'.basePaths <==> q in s.files.Keys + s.markers + s.basePaths
    {
      assert Within(c, q) && Within(p, q);
    }
  }

  lemma SameReached(s: State, s': State, p: Path, q: Path)
    requires Coherent(s) && Coherent(s') && s'.basePaths == s.basePaths
    requires forall q :: Within(p, q) ==> SameAt(s, s', q)
    ensures Reached(s', p, q) == Reached(s, p, q)
  {
    SameVisited(s, s', p, q);
    if Within(p, q) {
      forall i | |p| <= i <= |q| ensures Visible(s', q[..i]) == Visible(s, q[..i]) {
        assert Within(p, q[..i]);
        SameVisible(s, s', p, q[..i]);
      }
    }
  }

  lemma SameAllVisible(s: State, s': State, p: Path)
    requires Coherent(s) && Coherent(s') && s'.basePaths == s.basePaths
    requires forall q :: Within(p, q) ==> SameAt(s, s', q)
    ensures AllVisible(s', p) == AllVisible(s, p)
  {
    forall q ensures Visited(s', p, q) == Visited(s, p, q) {
      SameVisited(s, s', p, q);
    }
    forall q | Within(p, q) ensures Visible(s', q) == Visible(s, q) {
      SameVisible(s, s', p, q);
    }
  }

  /** `q` lies inside `p` and the listings lead to it through one of the entries `names` of `p`. */
  ghost predicate VisitedThrough(s: State, p: Path, names: set<string>, q: Path) {
    Inside(p, q) && q[|p|] in names && Visited(s, p + [q[|p|]], q)
  }

  /** `q` lies inside `p` and the removal of the entry of `p` that leads to it reaches it. */
  ghost predicate ReachedThrough(s: State, p: Path, names: set<string>, q: Path) {
    Inside(p, q) && q[|p|] in names && Reached(s, p + [q[|p|]], q)
  }

  /** `s'` is `s` after the entries `done` of directory `p` were removed. */
  ghost predicate EntriesRemoved(s: State, p: Path, done: set<string>, s': State) {
    && Coherent(s')
    && SameOutside(s, s', p)
    && SameAt(s, s', p)
    && (forall q :: Inside(p, q) && q[|p|] !in done ==> SameAt(s, s', q))
    && (forall q :: q in s'.files <==> q in s.files && !ReachedThrough(s, p, done, q))
    && (forall q :: q in s'.modified <==> q in s.modified && !ReachedThrough(s, p, done, q))
    && (forall q :: q in s'.deleted <==> q in s.deleted || ReachedThrough(s, p, done, q))
    && (forall q :: q in s'.markers <==> q in s.markers || ReachedThrough(s, p, done, q))
  }

  lemma ChildPath(p: Path, n: string)
    ensures Inside(p, p + [n]) && (p + [n])[|p|] == n && Parent(p + [n]) == p
    ensures forall q :: Within(p + [n], q) <==> Inside(p, q) && q[|p|] == n
  {
    assert forall q :: Inside(p, q) && q[|p|] == n ==> p + [n] == q[..|p| + 1];
  }

  lemma NextEntryRemoved(s: State, p: Path, done: set<string>, s1: State, n: string, s2: State)
    requires Coherent(s) && EntriesRemoved(s, p, done, s1) && n !in done
    requires Removed(s1, p + [n], s2)
    ensures EntriesRemoved(s, p, done + {n}, s2)
  {
    ChildPath(p, n);
    assert !Within(p + [n], p);
    forall q ensures ReachedThrough(s, p, done + {n}, q) <==>
      ReachedThrough(s, p, done, q) || Reached(s1, p + [n], q)
    {
      SameReached(s, s1, p + [n], q);
    }
    NextEntrySame(s, p, done, s1, n, s2);
  }

  lemma NextEntrySame(s: State, p: Path, done: set<string>, s1: State, n: string, s2: State)
    requires EntriesRemoved(s, p, done, s1) && SameOutside(s1, s2, p + [n])
    ensures SameOutside(s, s2, p) && SameAt(s, s2, p)
    ensures forall q :: Inside(p, q) && q[|p|] !in done + {n} ==> SameAt(s, s2, q)
  {
    ChildPath(p, n);
    assert !Within(p + [n], p);
    assert forall q :: SameAt(s, s1, q) && SameAt(s1, s2, q) ==> SameAt(s, s2, q);
  }

  /** What the client lists in `p`. */
  function Names(s: State, p: Path): set<string> {
    RemoteNames(s, p) + LocalNames(s, p)
  }

  lemma NamesAreListed(s: State, p: Path, n: string)
    requires Coherent(s)
    ensures n in Names(s, p) <==> Listed(s, p + [n])
  {
  }

  lemma VisitedSplits(s: State, p: Path, q: Path)
    requires Coherent(s) && !Blocked(s, p) && Inside(p, q)
    ensures Visited(s, p, q) <==> VisitedThrough(s, p, Names(s, p), q)
  {
    var c := p + [q[|p|]];
    assert c == q[..|p| + 1] && p == q[..|p|];
    NamesAreListed(s, p, q[|p|]);
  }

  /** A path inside `p` is reached through the entry of `p` that leads to it. */
  lemma ReachedSplits(s: State, p: Path, q: Path)
    requires Coherent(s) && !Blocked(s, p) && Visible(s, p) && Inside(p, q)
    ensures Reached(s, p, q) <==> ReachedThrough(s, p, Names(s, p), q)
  {
    VisitedSplits(s, p, q);
    assert p == q[..|p|];
  }

  lemma ReachedAll(s: State, p: Path)
    requires Coherent(s) && !Blocked(s, p) && Visible(s, p)
    ensures forall q :: Reached(s, p, q) <==> q == p || ReachedThrough(s, p, Names(s, p), q)
  {
    forall q ensures Reached(s, p, q) <==> q == p || ReachedThrough(s, p, Names(s, p), q) {
      if Inside(p, q) { ReachedSplits(s, p, q); }
      assert Within(p, q) <==> q == p || Inside(p, q);
      assert q == p ==> q[..|p|] == p;
    }
  }

  /** All below a directory exists when it exists and all below its entries does. */
  lemma AllVisibleSplits(s: State, p: Path)
    requires Coherent(s) && !Blocked(s, p)
    ensures AllVisible(s, p) <==> Visible(s, p) && forall n :: n in Names(s, p) ==> AllVisible(s, p + [n])
  {
    forall q ensures Visited(s, p, q) <==> q == p || VisitedThrough(s, p, Names(s, p), q) {
      if Inside(p, q) { VisitedSplits(s, p, q); }
      assert Within(p, q) <==> q == p || Inside(p, q);
    }
    if AllVisible(s, p) {
      forall n, q | n in Names(s, p) && Visited(s, p + [n], q) ensures Visible(s, q) {
        ChildPath(p, n);
        assert VisitedThrough(s, p, Names(s, p), q);
      }
    }
    assert Visited(s, p, p);
  }

  /** `rm` of a directory is the removal of its entries and then of itself. */
  lemma DirectoryRemoved(s: State, p: Path, s1: State)
    requires Coherent(s) && !Blocked(s, p) && Visible(s, p) && EntriesRemoved(s, p, Names(s, p), s1)
    ensures Removed(s, p, RemoveEntry(s1, p))
  {
    RemoveEntryKeepsCoherence(s1, p);
    ReachedAll(s, p);
    RemovalLeavesOutside(s, p, s1);
  }

  lemma RemovalLeavesOutside(s: State, p: Path, s1: State)
    requires SameOutside(s, s1, p)
    ensures SameOutside(s, RemoveEntry(s1, p), p)
  {
    var s2 := RemoveEntry(s1, p);
    forall q | !Within(p, q) ensures SameAt(s, s2, q) {
      assert SameAt(s, s1, q) && SameAt(s1, s2, q);
    }
  }

  lemma OnlyItself(s: State, p: Path)
    requires Blocked(s, p)
    ensures forall q :: Visited(s, p, q) <==> q == p
    ensures forall q :: Reached(s, p, q) <==> q == p && Visible(s, p)
  {
    forall q ensures Visited(s, p, q) <==> q == p {
      assert Within(p, q) ==> q[..|p|] == p;
    }
    assert p[..|p|] == p;
  }

  lemma FileRemoved(s: State, p: Path)
    requires Coherent(s) && Visible(s, p) && Blocked(s, p)
    ensures Removed(s, p, RemoveEntry(s, p))
  {
    RemoveEntryKeepsCoherence(s, p);
    OnlyItself(s, p);
  }
}
