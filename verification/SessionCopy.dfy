/**
 What recursive `cp` and `mv` do to the live files. `src` and `dest` are disjoint: neither is inside the other.
 */
module SessionCopy {
  import opened Wrappers
  import opened SessionState
  import opened SessionCoherence
  import opened SessionVisible
  import opened SessionRemoval
  import opened SessionTidy

  ghost predicate Disjoint(a: Path, b: Path) {
    !Within(a, b) && !Within(b, a)
  }

  /** `cp(src)` reaches `q` and takes it for a file. */
  ghost predicate CopySource(s: State, src: Path, q: Path) {
    Visited(s, src, q) && ReportsFile(s, q)
  }

  /** The path that lands on `q` when `src` is copied to `dest`. */
  function Origin(src: Path, dest: Path, q: Path): Path
    requires Within(dest, q)
  {
    src + q[|dest|..]
  }

  ghost predicate LandsOn(s: State, src: Path, dest: Path, q: Path) {
    Within(dest, q) && CopySource(s, src, Origin(src, dest, q))
  }

  /** Every file of `src` the client reaches is at its place under `dest`, and no other file changed. */
  ghost predicate Copied(s: State, src: Path, dest: Path, files: map<Path, Bytes>) {
    && (forall q :: q in files <==> q in s.files || LandsOn(s, src, dest, q))
    && (forall q :: q in files ==>
          if LandsOn(s, src, dest, q)
          then Origin(src, dest, q) in s.files && files[q] == s.files[Origin(src, dest, q)]
          else q in s.files && files[q] == s.files[q])
  }

  /** No copied file would get a live file as an ancestor. */
  ghost predicate NoClash(s: State, src: Path, dest: Path) {
    forall q, a :: LandsOn(s, src, dest, q) && Inside(a, q) ==> a !in s.files
  }

  // ---------------------------------------------------------------- what stays the same around the source

  ghost predicate SourceAt(s: State, s': State, q: Path) {
    && (q in s.files <==> q in s'.files) && (q in s.files ==> s'.files[q] == s.files[q])
    && (q in s.modified <==> q in s'.modified)
    && (q in s.deleted <==> q in s'.deleted)
    && (ReportsFile(s, q) <==> ReportsFile(s', q))
    && (Visible(s, q) <==> Visible(s', q))
    && (Tracked(s, q) ==> Tracked(s', q))
  }

  /** At and below `r` the two states agree on everything a copy or a removal of it depends on. */
  ghost predicate SourceKept(s: State, s': State, r: Path) {
    && Coherent(s') && s'.basePaths == s.basePaths
    && (forall q :: Within(r, q) ==> SourceAt(s, s', q))
    && ([] !in s.files ==> [] !in s'.files)
    && (TidyAt(s, r) && [] !in s.files ==> TidyAt(s', r))
  }

  lemma SourceKeptChain(s: State, s1: State, s2: State, r: Path)
    requires SourceKept(s, s1, r) && SourceKept(s1, s2, r)
    ensures SourceKept(s, s2, r)
  {
    assert forall q :: SourceAt(s, s1, q) && SourceAt(s1, s2, q) ==> SourceAt(s, s2, q);
  }

  lemma SameAtTidy(s: State, s': State, r: Path)
    requires TidyAt(s, r) && Coherent(s') && s'.basePaths == s.basePaths
    requires forall q :: Within(r, q) ==> SameAt(s, s', q)
    ensures TidyAt(s', r)
  {
    forall q | Inside(r, q) ensures SameAt(s, s', q) { assert Within(r, q); }
    forall c, q | Within(r, c) && Inside(c, q) ensures Within(r, q) {}
    forall d | Within(r, d) ensures Below(s', d) == Below(s, d) {}
    forall q | q in s'.modified && Inside(r, q) && |q| >= 2 ensures Parent(q) in s'.modified {
      assert Parent(q) in s.modified;
      assert Within(r, Parent(q));
    }
  }

  lemma SameAtKeepsSource(s: State, s': State, r: Path)
    requires Coherent(s) && Coherent(s') && s'.basePaths == s.basePaths
    requires forall q :: Within(r, q) ==> SameAt(s, s', q)
    requires [] !in s.files ==> [] !in s'.files
    ensures SourceKept(s, s', r)
  {
    if TidyAt(s, r) { SameAtTidy(s, s', r); }
    forall q | Within(r, q) ensures SourceAt(s, s', q) {
      SameVisible(s, s', r, q);
    }
  }

  lemma ExistsKeepsSource(s: State, p: Path, r: Path)
    requires Coherent(s)
    ensures SourceKept(s, Exists(s, p).0, r) && Exists(s, p).0.files == s.files
  {
    ExistsLookup(s, p);
    ExistsSameElsewhere(s, p);
    var s1 := Exists(s, p).0;
    forall q ensures SourceAt(s, s1, q) {
      assert q != p ==> SameAt(s, s1, q);
      ExistsKeepsVisible(s, p, q);
    }
    if TidyAt(s, r) && [] !in s.files { ExistsTidy(s, p, r); }
  }

  lemma MkdirHereKeepsSource(s: State, p: Path, r: Path)
    requires Coherent(s) && p !in s.files && !Within(r, p)
    ensures SourceKept(s, MkdirHere(s, p).0, r) && MkdirHere(s, p).0.files == s.files
  {
    var s1 := MkdirHere(s, p).0;
    assert Coherent(s1);
    assert forall q :: Within(r, q) ==> q != p;
    SameAtKeepsSource(s, s1, r);
  }

  lemma {:induction false} MkdirKeepsSource(s: State, p: Path, recursive: bool, r: Path)
    requires Coherent(s) && !Within(r, p)
    ensures SourceKept(s, Mkdir(s, p, recursive).0, r) && Mkdir(s, p, recursive).0.files == s.files
    decreases |p|
  {
    ExistsKeepsSource(s, p, r);
    ExistsAnswer(s, p);
    var (s1, found) := Exists(s, p);
    if !found {
      var s2 := s1;
      if Parent(p) != [] {
        assert !Within(r, Parent(p));
        if recursive {
          MkdirKeepsSource(s1, Parent(p), true, r);
          s2 := Mkdir(s1, Parent(p), true).0;
        } else {
          ExistsKeepsSource(s1, Parent(p), r);
          s2 := Exists(s1, Parent(p)).0;
        }
        SourceKeptChain(s, s1, s2, r);
      }
      MkdirHereKeepsSource(s2, p, r);
      SourceKeptChain(s, s2, MkdirHere(s2, p).0, r);
    }
  }

  lemma PreparedSame(s: State, p: Path, q: Path)
    requires q != Parent(p)
    ensures SameAt(s, ParentPrepared(s, p), q) && ParentPrepared(s, p).basePaths == s.basePaths
  {
    DirLookupSameElsewhere(s, Parent(p));
  }

  lemma WriteSame(s: State, p: Path, content: Bytes, q: Path)
    requires q != p && !Within(q, Parent(p))
    ensures SameAt(s, WriteFile(s, p, content), q) && WriteFile(s, p, content).basePaths == s.basePaths
  {
    PreparedSame(s, p, q);
    assert q != Parent(p) by { assert Within(Parent(p), Parent(p)); }
    MarksAre(ParentPrepared(s, p).modified + {p}, Parent(p));
  }

  lemma WriteKeepsSource(s: State, p: Path, content: Bytes, r: Path)
    requires Coherent(s) && WriteSafe(s, p) && !Within(r, p) && p != []
    ensures SourceKept(s, WriteFile(s, p, content), r)
  {
    WriteKeepsCoherence(s, p, content);
    assert WriteFile(s, p, content).basePaths == s.basePaths by { PreparedSame(s, p, p); }
    forall q | Within(r, q) ensures SameAt(s, WriteFile(s, p, content), q) {
      assert !Within(q, Parent(p));
      WriteSame(s, p, content, q);
    }
    SameAtKeepsSource(s, WriteFile(s, p, content), r);
  }

  lemma SourceKeptVisits(s: State, s': State, r: Path, src: Path, q: Path)
    requires SourceKept(s, s', r) && Within(r, src)
    ensures Visited(s', src, q) == Visited(s, src, q) && CopySource(s', src, q) == CopySource(s, src, q)
    ensures Visited(s, src, q) ==> Visible(s', q) == Visible(s, q)
  {
    if Within(src, q) {
      forall i | |src| <= i <= |q|
        ensures Blocked(s', q[..i]) == Blocked(s, q[..i]) && Listed(s', q[..i]) == Listed(s, q[..i])
      {
        var c := q[..i];
        assert Within(r, c) && SourceAt(s, s', c);
        assert forall b :: Inside(c, b) ==> Within(r, b) && SourceAt(s, s', b);
      }
      assert Within(r, q) && SourceAt(s, s', q);
    }
  }

  // ---------------------------------------------------------------- how the copies of the children add up

  ghost predicate LandsThrough(s: State, src: Path, dest: Path, done: set<string>, q: Path) {
    Inside(dest, q) && q[|dest|] in done && LandsOn(s, src + [q[|dest|]], dest + [q[|dest|]], q)
  }

  ghost predicate CopiedThrough(s: State, src: Path, dest: Path, done: set<string>, files: map<Path, Bytes>) {
    && (forall q :: q in files <==> q in s.files || LandsThrough(s, src, dest, done, q))
    && (forall q :: q in files ==>
          if LandsThrough(s, src, dest, done, q)
          then Origin(src, dest, q) in s.files && files[q] == s.files[Origin(src, dest, q)]
          else q in s.files && files[q] == s.files[q])
  }

  lemma OriginThrough(src: Path, dest: Path, q: Path)
    requires Inside(dest, q)
    ensures var n := q[|dest|];
      Within(dest + [n], q) && Origin(src + [n], dest + [n], q) == Origin(src, dest, q)
  {
    var n := q[|dest|];
    assert q[|dest|..] == [n] + q[|dest| + 1..];
    assert src + [n] + q[|dest| + 1..] == src + ([n] + q[|dest| + 1..]);
  }

  lemma CopySplits(s: State, src: Path, dest: Path, q: Path)
    requires Coherent(s) && !Blocked(s, src)
    ensures LandsOn(s, src, dest, q) <==> LandsThrough(s, src, dest, Names(s, src), q)
  {
    if Within(dest, q) {
      var o := Origin(src, dest, q);
      if Inside(dest, q) {
        OriginThrough(src, dest, q);
        assert Inside(src, o) && o[|src|] == q[|dest|];
        VisitedSplits(s, src, o);
      } else {
        assert o == src;
      }
    }
  }

  lemma DirectoryCopied(s: State, src: Path, dest: Path, files: map<Path, Bytes>)
    requires Coherent(s) && !Blocked(s, src) && CopiedThrough(s, src, dest, Names(s, src), files)
    ensures Copied(s, src, dest, files)
  {
    forall q ensures LandsOn(s, src, dest, q) <==> LandsThrough(s, src, dest, Names(s, src), q) {
      CopySplits(s, src, dest, q);
    }
  }

  lemma FileCopied(s: State, src: Path, dest: Path, files: map<Path, Bytes>)
    requires Coherent(s) && src !in s.deleted && ReportsFile(s, src)
    requires src in s.files && files == s.files[dest := s.files[src]]
    ensures Copied(s, src, dest, files)
  {
    forall q ensures LandsOn(s, src, dest, q) <==> q == dest {
      if Within(dest, q) {
        var o := Origin(src, dest, q);
        assert o[..|src|] == src;
        assert q == dest <==> o == src;
        assert Visited(s, src, src);
      }
    }
    assert Origin(src, dest, dest) == src;
  }

  lemma NextChildCopied(s: State, src: Path, dest: Path, done: set<string>, s1: State, n: string,
                        files: map<Path, Bytes>, r: Path)
    requires Coherent(s) && SourceKept(s, s1, r) && Within(r, src) && n !in done
    requires CopiedThrough(s, src, dest, done, s1.files) && Copied(s1, src + [n], dest + [n], files)
    ensures CopiedThrough(s, src, dest, done + {n}, files)
  {
    var sc, dc := src + [n], dest + [n];
    forall q ensures LandsOn(s1, sc, dc, q) <==> LandsOn(s, sc, dc, q) {
      if Within(dc, q) { SourceKeptVisits(s, s1, r, sc, Origin(sc, dc, q)); }
    }
    forall q | Within(dc, q) ensures Inside(dest, q) && q[|dest|] == n && Origin(sc, dc, q) == Origin(src, dest, q) {
      OriginThrough(src, dest, q);
    }
    forall q | Inside(dest, q) && q[|dest|] == n ensures Within(dc, q) {
      OriginThrough(src, dest, q);
    }
    forall q | LandsOn(s, sc, dc, q)
      ensures Origin(src, dest, q) in s.files && files[q] == s.files[Origin(src, dest, q)]
    {
      var o := Origin(src, dest, q);
      assert Within(sc, o) && Within(r, o);
      assert SourceAt(s, s1, o);
    }
  }

  lemma ChildGuard(s: State, src: Path, dest: Path, done: set<string>, s1: State, n: string, r: Path)
    requires Coherent(s) && !Blocked(s, src) && NoClash(s, src, dest)
    requires SourceKept(s, s1, r) && Within(r, src) && n in Names(s, src) && n !in done
    requires CopiedThrough(s, src, dest, done, s1.files)
    ensures NoClash(s1, src + [n], dest + [n])
  {
    var sc, dc := src + [n], dest + [n];
    forall q, a | LandsOn(s1, sc, dc, q) && Inside(a, q) ensures a !in s1.files {
      SourceKeptVisits(s, s1, r, sc, Origin(sc, dc, q));
      assert q[|dest|] == dc[|dest|];
      OriginThrough(src, dest, q);
      CopySplits(s, src, dest, q);
      assert a !in s.files;
      assert |dest| < |a| ==> a[|dest|] == q[|dest|];
    }
  }

  // ---------------------------------------------------------------- tidy sources

  /** In a tidy state the copy reaches exactly the live files at and below its source. */
  lemma TidySources(s: State, src: Path, q: Path)
    requires Removable(s, src) && src !in s.deleted
    ensures CopySource(s, src, q) <==> q in s.files && Within(src, q)
  {
    if q in s.files && Within(src, q) {
      TidyVisitsAll(s, src, q);
    }
  }

  /** The live files after moving `src` to `dest`. */
  function Moved(files: map<Path, Bytes>, src: Path, dest: Path): map<Path, Bytes> {
    map q | q in files.Keys + (set o | o in files && Within(src, o) :: dest + o[|src|..])
        && ((Within(dest, q) && Origin(src, dest, q) in files) || (q in files && !Within(src, q))) ::
      if Within(dest, q) && Origin(src, dest, q) in files then files[Origin(src, dest, q)] else files[q]
  }

  lemma MovedMembers(files: map<Path, Bytes>, src: Path, dest: Path, q: Path)
    ensures q in Moved(files, src, dest) <==>
      (Within(dest, q) && Origin(src, dest, q) in files) || (q in files && !Within(src, q))
  {
    if Within(dest, q) && Origin(src, dest, q) in files {
      var o := Origin(src, dest, q);
      assert Within(src, o) && dest + o[|src|..] == q;
    }
  }

  /**
   The live files after `src` was copied to `dest` and removed, in any coherent state: what the copy took for files of
   the source is at its place under `dest`, all to which the listings of `src` lead is gone, nothing else changed.
   */
  ghost predicate MovedAcross(s: State, src: Path, dest: Path, files: map<Path, Bytes>) {
    && (forall q :: q in files <==> LandsOn(s, src, dest, q) || (q in s.files && !Visited(s, src, q)))
    && (forall q :: q in files ==>
          if LandsOn(s, src, dest, q)
          then Origin(src, dest, q) in s.files && files[q] == s.files[Origin(src, dest, q)]
          else q in s.files && files[q] == s.files[q])
  }

  lemma SourceKeptReached(s: State, s': State, r: Path)
    requires SourceKept(s, s', r)
    ensures AllVisible(s', r) == AllVisible(s, r)
    ensures forall q :: Visited(s', r, q) == Visited(s, r, q)
  {
    forall q
      ensures Visited(s', r, q) == Visited(s, r, q)
      ensures Visited(s, r, q) ==> Visible(s', q) == Visible(s, q)
    {
      SourceKeptVisits(s, s', r, r, q);
    }
  }

  /** A copy and the removal of a source in which everything listed exists. */
  lemma CopyThenRemoveMovesAcross(s: State, src: Path, dest: Path, s1: State, s2: State)
    requires Disjoint(src, dest) && SourceKept(s, s1, src) && AllVisible(s, src)
    requires Copied(s, src, dest, s1.files) && Removed(s1, src, s2)
    ensures MovedAcross(s, src, dest, s2.files)
  {
    SourceKeptReached(s, s1, src);
    forall q
      ensures q in s2.files <==> LandsOn(s, src, dest, q) || (q in s.files && !Visited(s, src, q))
      ensures q in s2.files ==> s2.files[q] == s1.files[q]
    {
      ReachedWhenVisible(s1, src, q);
      assert Copied(s, src, dest, s1.files);
      if LandsOn(s, src, dest, q) { NotInSource(src, dest, q); }
    }
  }

  lemma NotInSource(src: Path, dest: Path, q: Path)
    requires Disjoint(src, dest) && Within(dest, q)
    ensures !Within(src, q)
  {
  }

  /** From a tidy source, all its files are moved. */
  lemma TidyMovedAcross(s: State, src: Path, dest: Path, files: map<Path, Bytes>)
    requires Removable(s, src) && src !in s.deleted && Disjoint(src, dest) && MovedAcross(s, src, dest, files)
    ensures files == Moved(s.files, src, dest)
  {
    forall q
      ensures q in files <==> q in Moved(s.files, src, dest)
      ensures q in files ==> files[q] == Moved(s.files, src, dest)[q]
    {
      MovedMembers(s.files, src, dest, q);
      CopyLanded(s, src, dest, q);
      if q in s.files && Within(src, q) { TidyVisitsAll(s, src, q); }
    }
  }

  lemma CopyLanded(s: State, src: Path, dest: Path, q: Path)
    requires Removable(s, src) && src !in s.deleted && Disjoint(src, dest)
    ensures LandsOn(s, src, dest, q) <==> Within(dest, q) && Origin(src, dest, q) in s.files
    ensures Within(dest, q) ==> !Within(src, q)
  {
    if Within(dest, q) {
      TidySources(s, src, Origin(src, dest, q));
    }
  }

  /** Moving conserves content: each file below `src` is at its new place with its old bytes, nothing is left behind. */
  lemma MoveConserves(files: map<Path, Bytes>, src: Path, dest: Path, q: Path)
    requires Disjoint(src, dest)
    ensures var moved := Moved(files, src, dest);
      && (q in files && Within(src, q) ==>
            var there := dest + q[|src|..];
            q !in moved && there in moved && moved[there] == files[q])
      && (!Within(src, q) && !Within(dest, q) ==>
            (q in moved <==> q in files) && (q in files ==> moved[q] == files[q]))
  {
    MovedMembers(files, src, dest, q);
    if q in files && Within(src, q) {
      var there := dest + q[|src|..];
      MovedMembers(files, src, dest, there);
      assert Within(dest, there) && Origin(src, dest, there) == q;
      assert !Within(dest, q);
    }
  }
}
