/** What `exists` answers, as a condition on the tracking sets and the remote, without the lookups it makes. */
module SessionVisible {
  import opened Wrappers
  import opened SessionState
  import opened SessionCoherence

  predicate FileFound(s: State, c: Path) {
    c !in s.notExistsAsFile && c in s.files
  }

  predicate DirFound(s: State, c: Path) {
    c !in s.notExistsAsDir && (c == [] || Listing(s, c) != {} || StatIsDirectory(s, c))
  }

  predicate Visible(s: State, c: Path) {
    c !in s.deleted && if Tracked(s, c) then c in s.cache else FileFound(s, c) || DirFound(s, c)
  }

  lemma SameRemote(s: State, s1: State, c: Path)
    requires s1.files == s.files && s1.markers == s.markers && s1.basePaths == s.basePaths
    ensures Listing(s1, c) == Listing(s, c) && StatIsDirectory(s1, c) == StatIsDirectory(s, c)
  {
    forall n ensures Below(s1, c + [n]) == Below(s, c + [n]) {}
  }

  lemma ExistsIsVisible(s: State, c: Path)
    ensures Exists(s, c).1 == Visible(s, c)
  {
    SameRemote(s, EnsureFileLoaded(s, c).0, c);
  }

  lemma LiveIsVisible(s: State, c: Path)
    requires Coherent(s) && c in s.files
    ensures Visible(s, c)
  {
  }

  /** A lookup of `p` changes no answer. */
  lemma ExistsKeepsVisible(s: State, p: Path, c: Path)
    requires Coherent(s)
    ensures Visible(Exists(s, p).0, c) == Visible(s, c)
  {
    var s1 := Exists(s, p).0;
    ExistsLookup(s, p);
    SameRemote(s, s1, c);
    ExistsIsVisible(s, p);
    if c == p { AnswerIsKnown(s, p); }
  }

  /** After `exists` the client knows the answer: the path is tracked, or known to be nothing. */
  lemma AnswerIsKnown(s: State, p: Path)
    requires Coherent(s)
    ensures
      var (s1, found) := Exists(s, p);
      if found then p !in s1.deleted && Tracked(s1, p) && p in s1.cache
      else p in s1.deleted || (!Tracked(s1, p) && p in s1.notExistsAsFile && p in s1.notExistsAsDir)
  {
    ExistsLookup(s, p);
    FileLookup(s, p);
    DirLookup(EnsureFileLoaded(s, p).0, p);
  }
}
