/**
 When the recursive copy of a directory succeeds. Its files are always written, but a directory to be created can be
 refused by the cache (SessionFindings). `CopyClear` says for the whole tree, before the copy, that none will be.
 */
module SessionClear {
  import opened Wrappers
  import opened SessionState
  import opened SessionCoherence
  import opened SessionVisible
  import opened SessionRemoval
  import opened SessionTidy
  import opened SessionCopy
  import opened SessionFindings

  // ---------------------------------------------------------------- the condition

  /** The client does not see `c`, but it is in the cache, or gets there when its parent is looked up. */
  ghost predicate Refused(s: State, c: Path) {
    !Visible(s, c) && (c in s.cache || LookupCaches(s, Parent(c), c))
  }

  /** No directory that the copy creates inside `dest` is refused. */
  ghost predicate Clear(s: State, src: Path, dest: Path) {
    forall q :: Inside(src, q) && Visited(s, src, q) && !ReportsFile(s, q) ==> !Refused(s, dest + q[|src|..])
  }

  ghost predicate CopyClear(s: State, src: Path, dest: Path) {
    MkdirClear(s, dest) && Clear(s, src, dest)
  }

  /** The part of `Clear` that belongs to the child `n`, once `dest` exists. */
  ghost predicate ChildClear(s: State, src: Path, dest: Path, n: string) {
    !ReportsFile(s, src + [n]) ==>
      (Visible(s, dest + [n]) || dest + [n] !in s.cache) && Clear(s, src + [n], dest + [n])
  }

  // ---------------------------------------------------------------- what operations leave alone

  /** At `q` the states agree, also on whether it is cached. */
  ghost predicate StatusAt(s: State, s': State, q: Path) {
    SameAt(s, s', q) && (q in s'.cache ==> q in s.cache)
  }

  ghost predicate SameBeyond(s: State, s': State, p: Path) {
    s'.basePaths == s.basePaths && forall q :: Disjoint(p, q) ==> StatusAt(s, s', q)
  }

  ghost predicate Settled(s: State, a: Path) {
    Tracked(s, a) && a !in s.deleted
  }

  ghost predicate SettledKept(s: State, s': State) {
    forall a :: Settled(s, a) ==> Settled(s', a)
  }

  ghost predicate ParentSettled(s: State, p: Path) {
    Parent(p) == [] || Settled(s, Parent(p))
  }

  lemma Comparable(a: Path, b: Path, q: Path)
    requires Within(a, q) && Within(b, q)
    ensures Within(a, b) || Within(b, a)
  {
    assert a == q[..|a|] && b == q[..|b|];
  }

  lemma DisjointBelow(a: Path, b: Path, q: Path)
    requires Disjoint(a, b) && Within(b, q)
    ensures Disjoint(a, q) && Disjoint(q, a)
  {
    if Within(a, q) { Comparable(a, b, q); }
  }

  lemma FileLookupBeyond(s: State, p: Path)
    ensures SameBeyond(s, EnsureFileLoaded(s, p).0, p) && SettledKept(s, EnsureFileLoaded(s, p).0)
  {
    FileLookupSameElsewhere(s, p);
    assert forall q :: q in Ancestors(p) + {p} ==> Within(q, p);
  }

  lemma DirLookupBeyond(s: State, p: Path)
    ensures SameBeyond(s, EnsureDirLoaded(s, p).0, p) && SettledKept(s, EnsureDirLoaded(s, p).0)
  {
    DirLookupSameElsewhere(s, p);
    assert forall q :: q in Ancestors(p) + {p} ==> Within(q, p);
    forall q, n | q in Ancestors(p + [n]) + {p + [n]} ensures !Disjoint(p, q) {
      assert q == (p + [n])[..|q|];
    }
  }

  lemma ExistsBeyond(s: State, p: Path)
    ensures SameBeyond(s, Exists(s, p).0, p) && SettledKept(s, Exists(s, p).0)
  {
    var s1 := EnsureFileLoaded(s, p).0;
    FileLookupBeyond(s, p);
    DirLookupBeyond(s1, p);
    var s2 := EnsureDirLoaded(s1, p).0;
    assert forall q :: StatusAt(s, s1, q) && StatusAt(s1, s2, q) ==> StatusAt(s, s2, q);
  }

  lemma {:induction false} MkdirSettles(s: State, p: Path)
    ensures SettledKept(s, Mkdir(s, p, true).0)
    decreases |p|
  {
    ExistsBeyond(s, p);
    var (s1, found) := Exists(s, p);
    if !found && Parent(p) != [] { MkdirSettles(s1, Parent(p)); }
  }

  /** Creating an invisible directory in one that exists changes that directory only. */
  lemma MkdirHereOnly(s: State, p: Path)
    requires Coherent(s) && p != [] && ParentSettled(s, p) && !Visible(s, p)
    ensures Mkdir(s, p, true) == MkdirHere(Exists(s, p).0, p)
    ensures Mkdir(s, p, true).1.Ok? <==> p !in s.cache
  {
    var (s1, found) := Exists(s, p);
    ExistsBeyond(s, p);
    ExistsIsVisible(s, p);
    ExistsLookup(s, p);
    FailedExists(s, p, p);
    if Parent(p) != [] {
      assert Settled(s1, Parent(p));
      assert Exists(s1, Parent(p)) == (s1, true);
    }
  }

  /** Creating a directory in one that exists: refused exactly when it is cached without being visible. */
  lemma MkdirInSettled(s: State, p: Path)
    requires Coherent(s) && p != [] && ParentSettled(s, p)
    ensures SameBeyond(s, Mkdir(s, p, true).0, p)
    ensures Mkdir(s, p, true).1.Ok? <==> Visible(s, p) || p !in s.cache
  {
    var s1 := Exists(s, p).0;
    ExistsBeyond(s, p);
    ExistsIsVisible(s, p);
    if !Visible(s, p) {
      MkdirHereOnly(s, p);
      MkdirHereBeyond(s1, p);
      var s2 := MkdirHere(s1, p).0;
      assert forall q :: StatusAt(s, s1, q) && StatusAt(s1, s2, q) ==> StatusAt(s, s2, q);
    }
  }

  lemma MkdirHereBeyond(s: State, p: Path)
    ensures SameBeyond(s, MkdirHere(s, p).0, p)
  {
    assert forall q :: Disjoint(p, q) ==> q != p;
  }

  lemma MadeIsSettled(s: State, p: Path)
    requires Coherent(s) && Mkdir(s, p, true).1.Ok?
    ensures Settled(Mkdir(s, p, true).0, p)
  {
    ExistsSettles(s, p);
    ExistsAnswer(s, p);
    ExistsLookup(s, p);
  }

  lemma PreparedSettles(s: State, p: Path)
    ensures SettledKept(s, ParentPrepared(s, p))
  {
    DirLookupBeyond(s, Parent(p));
  }

  lemma WriteSettles(s: State, p: Path, content: Bytes)
    ensures SettledKept(s, WriteFile(s, p, content))
  {
    PreparedSettles(s, p);
  }

  lemma WriteInSettled(s: State, p: Path, content: Bytes)
    requires Coherent(s) && p != [] && ParentSettled(s, p) && (Parent(p) != [] ==> Parent(p) !in s.files)
    ensures SameBeyond(s, WriteFile(s, p, content), p)
  {
    assert ParentPrepared(s, p) == s;
    var s' := WriteFile(s, p, content);
    forall q | Disjoint(p, q) ensures StatusAt(s, s', q) {
      assert Within(p, p) && !Within(q, Parent(p));
      WriteSame(s, p, content, q);
      assert q !in Ancestors(p) + {p};
    }
    WriteSame(s, p, content, p + [""]);
  }

  // ---------------------------------------------------------------- the condition depends on source and destination

  lemma StatusVisible(s: State, s': State, c: Path)
    requires s'.basePaths == s.basePaths && forall q :: Within(c, q) ==> StatusAt(s, s', q)
    requires Coherent(s) && Coherent(s')
    ensures Visible(s', c) == Visible(s, c) && Tracked(s', c) == Tracked(s, c) && Below(s', c) == Below(s, c)
    ensures c in s'.files <==> c in s.files
    ensures c in s'.cache <==> c in s.cache
  {
    assert Within(c, c) && StatusAt(s, s', c);
    assert forall q :: Inside(c, q) ==> Within(c, q);
    assert forall q :: StatusAt(s, s', q) ==> SameAt(s, s', q);
    SameVisible(s, s', c, c);
  }

  lemma RefusedKept(s: State, s': State, dest: Path, c: Path)
    requires s'.basePaths == s.basePaths && forall q :: Within(dest, q) ==> StatusAt(s, s', q)
    requires Coherent(s) && Coherent(s') && Inside(dest, c)
    ensures Refused(s', c) == Refused(s, c)
    ensures Visible(s', c) == Visible(s, c) && (c in s'.cache <==> c in s.cache)
  {
    assert forall q :: Within(c, q) ==> Within(dest, q);
    assert forall q :: Within(Parent(c), q) ==> Within(dest, q);
    StatusVisible(s, s', c);
    StatusVisible(s, s', Parent(c));
  }

  lemma ClearKept(s: State, s': State, src: Path, dest: Path, r: Path)
    requires Coherent(s) && SourceKept(s, s', r) && Within(r, src)
    requires forall q :: Within(dest, q) ==> StatusAt(s, s', q)
    ensures Clear(s', src, dest) == Clear(s, src, dest)
  {
    forall q | Inside(src, q)
      ensures Visited(s', src, q) == Visited(s, src, q) && ReportsFile(s', q) == ReportsFile(s, q)
      ensures Refused(s', dest + q[|src|..]) == Refused(s, dest + q[|src|..])
    {
      SourceKeptVisits(s, s', r, src, q);
      assert Within(r, q) && SourceAt(s, s', q);
      RefusedKept(s, s', dest, dest + q[|src|..]);
    }
  }

  // ---------------------------------------------------------------- creating the destination itself

  /** The remote is the same. */
  ghost predicate SameRemoteFiles(s: State, s': State) {
    s'.files == s.files && s'.markers == s.markers && s'.basePaths == s.basePaths
  }

  lemma ExistsSameRemote(s: State, p: Path)
    ensures SameRemoteFiles(s, Exists(s, p).0)
  {
    var s1 := EnsureFileLoaded(s, p).0;
    DirLookupSets(s1, p);
  }

  lemma MkdirHereRemote(s: State, p: Path)
    ensures SameRemoteFiles(s, MkdirHere(s, p).0)
  {
  }

  lemma {:induction false} MkdirRemote(s: State, p: Path)
    ensures SameRemoteFiles(s, Mkdir(s, p, true).0)
    decreases |p|
  {
    var (s1, found) := Exists(s, p);
    ExistsSameRemote(s, p);
    if found {
    } else if Parent(p) == [] {
      MkdirHereRemote(s1, p);
    } else {
      MkdirRemote(s1, Parent(p));
      MkdirHereRemote(Mkdir(s1, Parent(p), true).0, p);
    }
  }

  lemma MkdirHereSame(s: State, p: Path, c: Path)
    requires c != p
    ensures SameAt(s, MkdirHere(s, p).0, c)
  {
  }

  lemma {:induction false} MkdirSameInside(s: State, p: Path, c: Path)
    requires Inside(p, c)
    ensures SameAt(s, Mkdir(s, p, true).0, c)
    decreases |p|
  {
    var (s1, found) := Exists(s, p);
    ExistsSameElsewhere(s, p);
    if !found {
      var s2 := s1;
      if Parent(p) != [] {
        assert Inside(Parent(p), c);
        MkdirSameInside(s1, Parent(p), c);
        s2 := Mkdir(s1, Parent(p), true).0;
      }
      MkdirHereSame(s2, p, c);
      assert SameAt(s, s1, c) && SameAt(s1, s2, c);
    }
  }

  lemma MkdirVisibleInside(s: State, p: Path, c: Path)
    requires Coherent(s) && Inside(p, c)
    ensures
      var s' := Mkdir(s, p, true).0;
      && Visible(s', c) == Visible(s, c) && Tracked(s', c) == Tracked(s, c) && Below(s', c) == Below(s, c)
      && s'.files == s.files
  {
    var s' := Mkdir(s, p, true).0;
    MkdirRemote(s, p);
    MkdirSameInside(s, p, c);
    MkdirKeepsCoherence(s, p, true);
    SameRemote(s, s', c);
  }

  /** What is refused inside `p` is so before and after `p` was created. */
  lemma RefusedAfterMkdir(s: State, p: Path, c: Path)
    requires Coherent(s) && p != [] && Inside(p, c) && Mkdir(s, p, true).1.Ok?
    ensures Refused(Mkdir(s, p, true).0, c) == Refused(s, c)
  {
    var s' := Mkdir(s, p, true).0;
    MkdirVisibleInside(s, p, c);
    MkdirKeepsKeys(s, p, c);
    MadeIsSettled(s, p);
    if |c| > |p| + 1 {
      assert Inside(p, Parent(c));
      MkdirVisibleInside(s, p, Parent(c));
      if c !in s.cache { MkdirCachesShallow(s, p, c); }
    } else {
      assert Parent(c) == p;
      ExistsIsVisible(s, p);
      if !Visible(s, c) && c !in s.cache {
        if Visible(s, p) { ExistsCachesChild(s, c); } else { MkdirCachesNoChild(s, p, c); }
      }
    }
  }

  lemma ClearAfterMkdir(s: State, src: Path, dest: Path, r: Path)
    requires Coherent(s) && dest != [] && !Within(r, dest) && Within(r, src) && Mkdir(s, dest, true).1.Ok?
    ensures Clear(Mkdir(s, dest, true).0, src, dest) == Clear(s, src, dest)
  {
    var s' := Mkdir(s, dest, true).0;
    MkdirKeepsSource(s, dest, true, r);
    forall q | Inside(src, q)
      ensures Visited(s', src, q) == Visited(s, src, q) && ReportsFile(s', q) == ReportsFile(s, q)
      ensures Refused(s', dest + q[|src|..]) == Refused(s, dest + q[|src|..])
    {
      SourceKeptVisits(s, s', r, src, q);
      assert Within(r, q) && SourceAt(s, s', q);
      RefusedAfterMkdir(s, dest, dest + q[|src|..]);
    }
  }

  // ---------------------------------------------------------------- one child at a time

  lemma VisitedFromChild(s: State, src: Path, n: string, q: Path)
    requires Coherent(s) && !Blocked(s, src)
    ensures Inside(src, q) && q[|src|] == n && Visited(s, src, q) <==>
      n in Names(s, src) && Within(src + [n], q) && Visited(s, src + [n], q)
  {
    ChildPath(src, n);
    if Inside(src, q) && q[|src|] == n { VisitedSplits(s, src, q); }
  }

  lemma RefusedInSettled(s: State, dest: Path, n: string)
    requires Settled(s, dest)
    ensures Refused(s, dest + [n]) <==> !Visible(s, dest + [n]) && dest + [n] in s.cache
  {
    assert Parent(dest + [n]) == dest;
  }

  /** The condition for a child is the part of the condition for the directory that leads through it. */
  lemma ChildClearIs(s: State, src: Path, dest: Path, n: string)
    requires Coherent(s) && Settled(s, dest)
    ensures ChildClear(s, src, dest, n) <==>
      forall q :: Within(src + [n], q) && Visited(s, src + [n], q) && !ReportsFile(s, q) ==>
        !Refused(s, dest + [n] + q[|src| + 1..])
  {
    var sc, dc := src + [n], dest + [n];
    RefusedInSettled(s, dest, n);
    assert dc + sc[|src| + 1..] == dc;
    assert Visited(s, sc, sc);
    assert forall q :: Within(sc, q) <==> q == sc || Inside(sc, q);
    if ReportsFile(s, sc) {
      forall q | Inside(sc, q) ensures !Visited(s, sc, q) {
        assert q[..|sc|] == sc;
      }
    }
  }

  lemma ClearSplits(s: State, src: Path, dest: Path)
    requires Coherent(s) && !Blocked(s, src) && Settled(s, dest)
    ensures Clear(s, src, dest) <==> forall n :: n in Names(s, src) ==> ChildClear(s, src, dest, n)
  {
    forall n ensures ChildClear(s, src, dest, n) <==>
      forall q :: Within(src + [n], q) && Visited(s, src + [n], q) && !ReportsFile(s, q) ==>
        !Refused(s, dest + [n] + q[|src| + 1..])
    {
      ChildClearIs(s, src, dest, n);
    }
    forall q | Inside(src, q)
      ensures Visited(s, src, q) <==> q[|src|] in Names(s, src) && Visited(s, src + [q[|src|]], q)
      ensures Within(src + [q[|src|]], q) && dest + q[|src|..] == dest + [q[|src|]] + q[|src| + 1..]
    {
      VisitedFromChild(s, src, q[|src|], q);
      ChildPath(src, q[|src|]);
      assert q[|src|..] == [q[|src|]] + q[|src| + 1..];
    }
    if Clear(s, src, dest) {
      forall n | n in Names(s, src) ensures ChildClear(s, src, dest, n) {
        ChildPath(src, n);
      }
    }
  }

  // ---------------------------------------------------------------- what a copy does, besides the files

  ghost predicate SameApart(s: State, s': State, src: Path, dest: Path) {
    s'.basePaths == s.basePaths && forall q :: Disjoint(src, q) && Disjoint(dest, q) ==> StatusAt(s, s', q)
  }

  /**
   When a recursive copy succeeds, as it can be told before the call: all to which the listings of the source lead
   exists, and unless it is one file, no directory to be created is refused.
   */
  ghost predicate CopyAllowed(s: State, src: Path, dest: Path) {
    AllVisible(s, src) && (ReportsFile(s, src) || CopyClear(Exists(s, src).0, src, dest))
  }

  /** Whether a recursive copy succeeded, and what it left alone. */
  ghost predicate CpStatus(s: State, src: Path, dest: Path, s': State, ok: bool) {
    && SettledKept(s, s')
    && (ParentSettled(s, dest) ==> SameApart(s, s', src, dest))
    && (ok <==> CopyAllowed(s, src, dest))
  }

  /** The part of the condition that belongs to the child `n`, once `dest` exists. */
  ghost predicate ChildAllowed(s: State, src: Path, dest: Path, n: string) {
    AllVisible(s, src + [n]) && ChildClear(s, src, dest, n)
  }

  /** Where the loop over the children stands: those not done are untouched, all done succeeded unless it stopped. */
  ghost predicate CpLoop(s: State, src: Path, dest: Path, t: State, done: set<string>, ok: bool) {
    && SettledKept(s, t) && SameApart(s, t, src, dest)
    && (forall n, q :: n !in done && Within(dest + [n], q) ==> StatusAt(s, t, q))
    && (ok <==> forall n :: n in done ==> ChildAllowed(s, src, dest, n))
  }

  lemma CpLoopStarts(s: State, src: Path, dest: Path)
    ensures CpLoop(s, src, dest, s, {}, true)
  {
  }

  lemma CpLoopStopped(s: State, src: Path, dest: Path, t: State, done: set<string>, names: set<string>)
    requires CpLoop(s, src, dest, t, done, false) && done <= names
    ensures CpLoop(s, src, dest, t, names, false)
  {
  }

  /** The condition for copying a child, at its turn, is its part of the condition before the loop. */
  lemma ChildCondition(s: State, t: State, src: Path, dest: Path, r: Path, n: string)
    requires Coherent(s) && SourceKept(s, t, r) && Within(r, src) && Disjoint(src, dest) && Settled(t, dest)
    requires forall q :: Within(dest + [n], q) ==> StatusAt(s, t, q)
    ensures
      CopyClear(Exists(t, src + [n]).0, src + [n], dest + [n]) <==>
      (Visible(s, dest + [n]) || dest + [n] !in s.cache) && Clear(s, src + [n], dest + [n])
  {
    var sc, dc := src + [n], dest + [n];
    var t1 := Exists(t, sc).0;
    ExistsKeepsSource(t, sc, r);
    SourceKeptChain(s, t, t1, r);
    ExistsBeyond(t, sc);
    ChildrenDisjoint(src, dest, n);
    forall q | Within(dc, q) ensures StatusAt(s, t1, q) {
      DisjointBelow(sc, dc, q);
      assert StatusAt(s, t, q) && StatusAt(t, t1, q);
    }
    ClearKept(s, t1, sc, dc, r);
    StatusVisible(s, t1, dc);
    assert Parent(dc) == dest && Settled(t1, dest);
    MkdirInSettled(t1, dc);
    MkdirSucceedsIff(t1, dc);
  }

  lemma ChildrenDisjoint(src: Path, dest: Path, n: string)
    requires Disjoint(src, dest)
    ensures Disjoint(src + [n], dest + [n]) && Disjoint(src + [n], dest) && Disjoint(src, dest + [n])
  {
    DisjointBelow(src, dest, dest + [n]);
    DisjointBelow(dest, src, src + [n]);
    DisjointBelow(src + [n], dest, dest + [n]);
  }

  lemma SiblingsDisjoint(p: Path, m: string, n: string)
    requires m != n
    ensures Disjoint(p + [m], p + [n])
  {
    assert (p + [m])[|p|] == m && (p + [n])[|p|] == n;
  }

  /** One turn of the loop leaves the rest alone. */
  lemma CpLoopLeaves(s: State, t: State, src: Path, dest: Path, n: string, done: set<string>, t': State)
    requires CpLoop(s, src, dest, t, done, true) && n !in done && Disjoint(src, dest) && Settled(s, dest)
    requires SettledKept(t, t') && (ParentSettled(t, dest + [n]) ==> SameApart(t, t', src + [n], dest + [n]))
    ensures SettledKept(s, t') && SameApart(s, t', src, dest)
    ensures forall m, q :: m !in done + {n} && Within(dest + [m], q) ==> StatusAt(s, t', q)
  {
    var sc, dc := src + [n], dest + [n];
    assert Parent(dc) == dest && Settled(t, dest);
    forall q | Disjoint(src, q) && Disjoint(dest, q) ensures StatusAt(s, t', q) {
      DisjointBelow(q, src, sc);
      DisjointBelow(q, dest, dc);
      assert StatusAt(s, t, q) && StatusAt(t, t', q);
    }
    forall m, q | m !in done + {n} && Within(dest + [m], q) ensures StatusAt(s, t', q) {
      SiblingsDisjoint(dest, n, m);
      DisjointBelow(dc, dest + [m], q);
      ChildrenDisjoint(src, dest, n);
      assert Within(dest, q);
      DisjointBelow(sc, dest, q);
      assert StatusAt(s, t, q) && StatusAt(t, t', q);
    }
  }

  lemma AllVisibleKept(s: State, t: State, r: Path, c: Path)
    requires SourceKept(s, t, r) && Within(r, c)
    ensures AllVisible(t, c) == AllVisible(s, c) && ReportsFile(t, c) == ReportsFile(s, c)
  {
    forall q
      ensures Visited(t, c, q) == Visited(s, c, q) && (Visited(s, c, q) ==> Visible(t, q) == Visible(s, q))
    {
      SourceKeptVisits(s, t, r, c, q);
    }
    assert SourceAt(s, t, c);
  }

  /** One turn succeeds exactly when its part of the condition holds. */
  lemma CpLoopTurn(s: State, t: State, src: Path, dest: Path, r: Path, n: string, t': State, ok: bool)
    requires Coherent(s) && SourceKept(s, t, r) && Within(r, src) && Disjoint(src, dest) && Settled(t, dest)
    requires forall q :: Within(dest + [n], q) ==> StatusAt(s, t, q)
    requires CpStatus(t, src + [n], dest + [n], t', ok)
    ensures ok <==> ChildAllowed(s, src, dest, n)
  {
    ChildCondition(s, t, src, dest, r, n);
    assert Within(r, src + [n]);
    AllVisibleKept(s, t, r, src + [n]);
  }

  lemma CpLoopStep(s: State, t: State, src: Path, dest: Path, r: Path, n: string, done: set<string>, t': State,
                   ok: bool)
    requires Coherent(s) && CpLoop(s, src, dest, t, done, true) && n !in done
    requires SourceKept(s, t, r) && Within(r, src) && Disjoint(src, dest) && Settled(s, dest)
    requires CpStatus(t, src + [n], dest + [n], t', ok)
    ensures CpLoop(s, src, dest, t', done + {n}, ok)
  {
    CpLoopLeaves(s, t, src, dest, n, done, t');
    CpLoopTurn(s, t, src, dest, r, n, t', ok);
  }

  // ---------------------------------------------------------------- the ways in which a copy ends

  lemma MissingStatus(s: State, src: Path, dest: Path)
    requires !Exists(s, src).1
    ensures CpStatus(s, src, dest, Exists(s, src).0, false)
  {
    ExistsBeyond(s, src);
    ExistsIsVisible(s, src);
    assert Visited(s, src, src);
  }

  lemma FileStatus(s: State, src: Path, dest: Path, content: Bytes)
    requires Coherent(s) && NoClash(s, src, dest) && dest != [] && Exists(s, src).1 && ReportsFile(s, src)
    ensures CpStatus(s, src, dest, WriteFile(Exists(s, src).0, dest, content), true)
  {
    ExistsIsVisible(s, src);
    OnlyItself(s, src);
    FileApart(s, src, dest, content);
  }

  lemma FileApart(s: State, src: Path, dest: Path, content: Bytes)
    requires Coherent(s) && NoClash(s, src, dest) && dest != [] && ReportsFile(s, src)
    ensures
      var s2 := WriteFile(Exists(s, src).0, dest, content);
      SettledKept(s, s2) && (ParentSettled(s, dest) ==> SameApart(s, s2, src, dest))
  {
    var s1 := Exists(s, src).0;
    ExistsBeyond(s, src);
    ExistsLookup(s, src);
    WriteSettles(s1, dest, content);
    if ParentSettled(s, dest) {
      assert Origin(src, dest, dest) == src && Visited(s, src, src) && LandsOn(s, src, dest, dest);
      assert Inside(Parent(dest), dest);
      WriteInSettled(s1, dest, content);
      var s2 := WriteFile(s1, dest, content);
      assert forall q :: StatusAt(s, s1, q) && StatusAt(s1, s2, q) ==> StatusAt(s, s2, q);
    }
  }

  lemma MkdirApart(s: State, src: Path, dest: Path)
    requires Coherent(s) && dest != []
    ensures SettledKept(s, Mkdir(Exists(s, src).0, dest, true).0)
    ensures ParentSettled(s, dest) ==> SameApart(s, Mkdir(Exists(s, src).0, dest, true).0, src, dest)
  {
    var s1 := Exists(s, src).0;
    var s2 := Mkdir(s1, dest, true).0;
    ExistsBeyond(s, src);
    ExistsLookup(s, src);
    MkdirSettles(s1, dest);
    if ParentSettled(s, dest) {
      MkdirInSettled(s1, dest);
      assert forall q :: StatusAt(s, s1, q) && StatusAt(s1, s2, q) ==> StatusAt(s, s2, q);
    }
  }

  /** The destination directory was refused. */
  lemma RefusedStatus(s: State, src: Path, dest: Path)
    requires Coherent(s) && dest != [] && !ReportsFile(s, src) && Mkdir(Exists(s, src).0, dest, true).1.Err?
    ensures CpStatus(s, src, dest, Mkdir(Exists(s, src).0, dest, true).0, false)
  {
    MkdirApart(s, src, dest);
    ExistsLookup(s, src);
    MkdirSucceedsIff(Exists(s, src).0, dest);
  }

  /** The condition for a directory is, once the destination was made, that of all its children. */
  lemma DirectoryAllowed(s: State, s2: State, src: Path, dest: Path, r: Path)
    requires Coherent(s) && dest != [] && !Within(r, dest) && Within(r, src)
    requires Exists(s, src).1 && !ReportsFile(s, src)
    requires Mkdir(Exists(s, src).0, dest, true) == (s2, Ok(())) && !Blocked(s2, src)
    ensures CopyAllowed(s, src, dest) <==> forall n :: n in Names(s2, src) ==> ChildAllowed(s2, src, dest, n)
  {
    var s1 := Exists(s, src).0;
    ExistsKeepsSource(s, src, r);
    MkdirKeepsSource(s1, dest, true, r);
    SourceKeptChain(s, s1, s2, r);
    AllVisibleKept(s, s2, r, src);
    MkdirSucceedsIff(s1, dest);
    MadeIsSettled(s1, dest);
    ClearAfterMkdir(s1, src, dest, r);
    ClearSplits(s2, src, dest);
    ExistsIsVisible(s, src);
    assert SourceAt(s, s2, src);
    AllVisibleSplits(s2, src);
  }

  /** The destination directory was made, and the loop over the children has ended. */
  lemma DirectoryStatus(s: State, s2: State, src: Path, dest: Path, r: Path, s3: State, ok: bool)
    requires Coherent(s) && dest != [] && !Within(r, dest) && Within(r, src)
    requires Exists(s, src).1 && !ReportsFile(s, src)
    requires Mkdir(Exists(s, src).0, dest, true) == (s2, Ok(())) && !Blocked(s2, src)
    requires CpLoop(s2, src, dest, s3, Names(s2, src), ok)
    ensures CpStatus(s, src, dest, s3, ok)
  {
    MkdirApart(s, src, dest);
    if ParentSettled(s, dest) {
      assert forall q :: StatusAt(s, s2, q) && StatusAt(s2, s3, q) ==> StatusAt(s, s3, q);
    }
    DirectoryAllowed(s, s2, src, dest, r);
  }

  /** A new destination in a directory that exists: nothing at or below it is cached or known to the remote. */
  ghost predicate FreshDestination(s: State, dest: Path) {
    && dest != [] && (Parent(dest) == [] || Visible(s, Parent(dest)))
    && forall q :: Within(dest, q) ==> q !in s.cache && q !in s.files && q !in s.basePaths
  }

  /** Copying or moving to a new destination is never refused. */
  lemma FreshDestinationIsClear(s: State, src: Path, dest: Path)
    requires FreshDestination(s, dest)
    ensures CopyClear(s, src, dest)
  {
    forall c | Within(dest, c) ensures c !in s.cache && !Below(s, c) {
      assert forall q :: Inside(c, q) ==> Within(dest, q);
    }
    assert Within(Parent(dest), dest);
    forall c | ToCreate(s, dest, c) ensures c == dest {
      assert c == dest || Within(c, Parent(dest));
    }
    assert Within(dest, dest);
  }
}
