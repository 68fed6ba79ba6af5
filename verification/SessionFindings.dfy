/**
 Runs of the session filesystem that fall outside its invariants, and the exact condition for `mkdir -p`.
 */
module SessionFindings {
  import opened Wrappers
  import opened SessionState
  import opened SessionCoherence
  import opened SessionVisible
  import opened SessionRemoval
  import opened SessionTidy

  lemma WriteSets(s: State, p: Path, content: Bytes)
    requires Coherent(s)
    ensures var s', marks := WriteFile(s, p, content), Marks(s.modified + {p}, Parent(p));
      && s'.modified == s.modified + {p} + marks && s'.deleted == s.deleted - marks - {p}
      && s'.files == s.files[p := content] && CachedFile(s', p) && s'.basePaths == s.basePaths
  {
    ParentPreparedIsLookup(s, p);
  }

  /** Removing a file records just that. */
  lemma FileRemovalSets(s: State, p: Path, s': State)
    requires Coherent(s) && CachedFile(s, p) && Removed(s, p, s')
    ensures s'.modified == s.modified - {p} && s'.deleted == s.deleted + {p}
    ensures s'.files.Keys == s.files.Keys - {p} && s'.basePaths == s.basePaths
  {
    OnlyItself(s, p);
  }

  lemma CachedFileVisible(s: State, p: Path)
    requires Coherent(s) && CachedFile(s, p)
    ensures AllVisible(s, p)
  {
    OnlyItself(s, p);
    LiveIsVisible(s, p);
  }

  /**
   Writes and removals alone can hide a file from `rm`. With an empty session: write d/x/y/z and remove it, write
   d/x and remove it, write d/x/y/w. The directory d/x/y stayed marked modified under the removed d/x, so the last
   write does not undelete d/x. The recursive removal of d has nothing to complain about and leaves d/x/y/w.
   */
  lemma RemovalCanMissAFile(d: Path, x: string, y: string, z: string, w: string, content: Bytes,
                            s1: State, s2: State, s3: State, s4: State, s5: State)
    requires d != []
    requires s1 == WriteFile(Opened(map[], {}, {}), d + [x, y, z], content) && Removed(s1, d + [x, y, z], s2)
    requires s3 == WriteFile(s2, d + [x], content) && Removed(s3, d + [x], s4)
    requires s5 == WriteFile(s4, d + [x, y, w], content)
    ensures Coherent(s1) && CachedFile(s1, d + [x, y, z]) && Coherent(s3) && CachedFile(s3, d + [x])
    ensures Coherent(s5) && AllVisible(s5, d) && d + [x, y, w] in s5.files && !Reached(s5, d, d + [x, y, w])
  {
    FirstStage(d, x, y, z, content, s1, s2);
    SecondStage(d, x, y, content, s2, s3, s4);
    ThirdStage(d, x, y, w, content, s4, s5);
    OnlyHidden(d, x, s5);
    LiveFileReached(s5, d, d + [x, y, w]);
  }

  /** All that is modified is a prefix of `dx` or lies at or below it, its parent is, and there are no base files. */
  ghost predicate OnTheWay(s: State, dx: Path) {
    && Coherent(s) && s.basePaths == {} && Parent(dx) in s.modified
    && forall q :: q in s.modified && |q| >= |dx| ==> q[..|dx|] == dx
  }

  lemma MarksArePrefixes(modified: set<Path>, p: Path, dx: Path)
    requires Within(dx, p)
    ensures forall a :: a in Marks(modified, Parent(p)) && |a| >= |dx| ==> a[..|dx|] == dx
  {
    MarksAre(modified, Parent(p));
    forall a | a in Marks(modified, Parent(p)) && |a| >= |dx| ensures a[..|dx|] == dx {
      assert a == p[..|a|];
    }
  }

  lemma FirstStage(d: Path, x: string, y: string, z: string, content: Bytes, s1: State, s2: State)
    requires d != []
    requires s1 == WriteFile(Opened(map[], {}, {}), d + [x, y, z], content) && Removed(s1, d + [x, y, z], s2)
    ensures Coherent(s1) && CachedFile(s1, d + [x, y, z])
    ensures OnTheWay(s2, d + [x]) && d + [x, y] in s2.modified && s2.files.Keys == {}
  {
    FirstWrite(d, x, y, z, content);
    FileRemovalSets(s1, d + [x, y, z], s2);
  }

  lemma FirstWrite(d: Path, x: string, y: string, z: string, content: Bytes)
    requires d != []
    ensures
      var s1 := WriteFile(Opened(map[], {}, {}), d + [x, y, z], content);
      && OnTheWay(s1, d + [x]) && CachedFile(s1, d + [x, y, z]) && d + [x, y] in s1.modified
      && s1.files.Keys == {d + [x, y, z]}
  {
    var s0, dx, dxy, p := Opened(map[], {}, {}), d + [x], d + [x, y], d + [x, y, z];
    PathsUnder(d, x, y, z);
    FirstWriteMarks(s0, p, dxy, dx, d, content);
    WriteSets(s0, p, content);
    MarksArePrefixes(s0.modified + {p}, p, dx);
  }

  lemma SecondStage(d: Path, x: string, y: string, content: Bytes, s2: State, s3: State, s4: State)
    requires d != [] && OnTheWay(s2, d + [x]) && d + [x, y] in s2.modified && s2.files.Keys == {}
    requires s3 == WriteFile(s2, d + [x], content) && Removed(s3, d + [x], s4)
    ensures Coherent(s3) && CachedFile(s3, d + [x])
    ensures OnTheWay(s4, d + [x]) && d + [x, y] in s4.modified && d + [x] in s4.deleted && s4.files.Keys == {}
  {
    var dx := d + [x];
    assert Parent(dx) == d;
    SecondWriteKeeps(s2, dx, d + [x, y], content);
    WriteSets(s2, dx, content);
    MarksArePrefixes(s2.modified + {dx}, dx, dx);
    FileRemovalSets(s3, dx, s4);
  }

  lemma ThirdStage(d: Path, x: string, y: string, w: string, content: Bytes, s4: State, s5: State)
    requires d != [] && OnTheWay(s4, d + [x]) && d + [x, y] in s4.modified && d + [x] in s4.deleted
    requires s4.files.Keys == {} && s5 == WriteFile(s4, d + [x, y, w], content)
    ensures OnTheWay(s5, d + [x]) && d + [x] in s5.deleted && s5.files.Keys == {d + [x, y, w]}
    ensures Hides(s5, d, d + [x], d + [x, y, w])
  {
    var p := d + [x, y, w];
    PathsUnder(d, x, y, w);
    ThirdWriteHides(s4, d, d + [x], d + [x, y], p, content);
    WriteSets(s4, p, content);
    MarksArePrefixes(s4.modified + {p}, p, d + [x]);
    assert Marks(s4.modified + {p}, d + [x, y]) == {};
  }

  /** Nothing but the hidden directory could be listed in d. */
  lemma OnlyHidden(d: Path, x: string, s: State)
    requires d != [] && OnTheWay(s, d + [x]) && d + [x] in s.deleted
    requires forall f :: f in s.files ==> Within(d + [x], f)
    ensures AllVisible(s, d)
  {
    assert Parent(d + [x]) == d;
    forall q ensures Visited(s, d, q) ==> q == d {
      if |q| > |d| { NotListed(s, d + [x], q[..|d| + 1]); }
    }
  }

  lemma NotListed(s: State, dx: Path, c: Path)
    requires OnTheWay(s, dx) && dx in s.deleted && |c| == |dx|
    requires forall f :: f in s.files ==> Within(dx, f)
    ensures !Listed(s, c)
  {
    forall f | f in s.files ensures Within(c, f) ==> c == dx {
      assert f[..|dx|] == dx;
    }
    assert c[..|dx|] == c;
  }

  lemma PathsUnder(d: Path, x: string, y: string, z: string)
    requires d != []
    ensures var dx, dxy, p := d + [x], d + [x, y], d + [x, y, z];
      Parent(p) == dxy && Parent(dxy) == dx && Parent(dx) == d && Inside(d, dx) && Inside(dx, p)
  {
  }

  lemma FirstWriteMarks(s: State, p: Path, c: Path, b: Path, a: Path, content: Bytes)
    requires s == Opened(map[], {}, {})
    requires Parent(p) == c && Parent(c) == b && Parent(b) == a && a != []
    ensures var s' := WriteFile(s, p, content);
      Coherent(s') && CachedFile(s', p) && a in s'.modified && b in s'.modified && c in s'.modified
  {
    assert |a| < |b| < |c| < |p|;
    WriteKeepsCoherence(s, p, content);
    WriteSets(s, p, content);
    var m := s.modified + {p};
    assert Marks(m, a) == Marks(m, Parent(a)) + {a};
    assert Marks(m, b) == Marks(m, a) + {b};
    assert Marks(m, c) == Marks(m, b) + {c};
  }

  lemma SecondWriteKeeps(s: State, p: Path, under: Path, content: Bytes)
    requires Coherent(s) && under in s.modified && Parent(p) in s.modified
    ensures var s' := WriteFile(s, p, content);
      Coherent(s') && CachedFile(s', p) && under in s'.modified
  {
    assert Marks(s.modified, Parent(p)) == {};
    WriteKeepsCoherence(s, p, content);
    WriteSets(s, p, content);
  }

  lemma ThirdWriteHides(s: State, d: Path, dx: Path, dxy: Path, p: Path, content: Bytes)
    requires Coherent(s) && dx in s.deleted && dxy in s.modified
    requires Parent(p) == dxy && Inside(d, dx) && Inside(dx, p)
    ensures var s' := WriteFile(s, p, content);
      Coherent(s') && Hides(s', d, dx, p)
  {
    assert Marks(s.modified, Parent(p)) == {} == Marks(s.modified + {p}, Parent(p));
    WriteKeepsCoherence(s, p, content);
    WriteSets(s, p, content);
  }

  // ---------------------------------------------------------------- unsafe writes and appends

  /** A write below a base file that was never read: afterwards the file reads as a directory. */
  lemma WriteBelowUnreadFile(a: string, b: string, content: Bytes, other: Bytes)
    ensures
      var s := Opened(map[[a] := content], {}, {[a]});
      Coherent(s) && !WriteSafe(s, [a, b]) && !Faithful(WriteFile(s, [a, b], other))
  {
    var s := Opened(map[[a] := content], {}, {[a]});
    assert Parent([a, b]) == [a] && Parent([a]) == [];
    assert Marks(s.modified, [a]) == {[a]};
    WriteFaithfulIff(s, [a, b], other);
  }

  /** Decoding and encoding as UTF-8, as far as the byte 0xFF goes: it becomes the replacement character U+FFFD. */
  function Replaced(bytes: Bytes): Bytes {
    if bytes == [] then []
    else (if bytes[0] == 0xFF then [0xEF, 0xBF, 0xBD] else [bytes[0]]) + Replaced(bytes[1..])
  }

  /** Appending the byte 0xFF to an empty file: the remote gets three other bytes. */
  lemma AppendOfInvalidText(a: string)
    ensures
      var s := Opened(map[[a] := []], {}, {[a]});
      Coherent(s) && !AppendSafe(s, [a], [0xFF], Replaced) && !Faithful(AppendFile(s, [a], [0xFF], Replaced).0)
  {
    var s := Opened(map[[a] := []], {}, {[a]});
    var text: Bytes := [0xFF];
    assert [] + text == text && |Replaced(text)| == 3;
    AppendFaithfulIff(s, [a], text, Replaced);
  }

  // ---------------------------------------------------------------- old deletion markers

  /** A marked directory that only base files still point to is listed by its parent but does not exist. */
  lemma MarkedDirectoryListedButAbsent(s: State, p: Path, n: string)
    requires Coherent(s) && Visible(s, p)
    requires var c := p + [n];
      c in s.markers && c !in s.files && Below(s, c) && Listing(s, c) == {} && !Tracked(s, c) && c !in s.deleted
    ensures var s1 := Exists(s, p).0;
      Exists(s, p).1 && n in Names(s1, p) && !Exists(s1, p + [n]).1
  {
    var s1, c := Exists(s, p).0, p + [n];
    ExistsIsVisible(s, p);
    ExistsLookup(s, p);
    ExistsSameElsewhere(s, p);
    assert SameAt(s, s1, c);
    SameRemote(s, s1, c);
    SameRemote(s, s1, p);
    ExistsIsVisible(s1, c);
  }

  /**
   On a session where an earlier client removed the base directory p/a, whose file was p/a/f, a new client lists `a`
   in p but does not find it, so the listings of p lead to something that does not exist.
   */
  lemma ForeignMarkerStopsRemoval(p: Path, a: string, b: string, f: string, content: Bytes)
    requires a != b && p != []
    ensures
      var s := ForeignMarkers(p, a, b, f, content);
      && Coherent(s) && Exists(s, p).1 && !AllVisible(s, p)
      && a in Names(Exists(s, p).0, p) && !Exists(Exists(s, p).0, p + [a]).1
  {
    var s := ForeignMarkers(p, a, b, f, content);
    ForeignFacts(p, a, b, f, content);
    MarkedDirectoryListedButAbsent(s, p, a);
    ExistsIsVisible(s, p);
    AbsentChild(s, p, a);
  }

  lemma ForeignFacts(p: Path, a: string, b: string, f: string, content: Bytes)
    requires a != b && p != []
    ensures
      var s := ForeignMarkers(p, a, b, f, content);
      Coherent(s) && Visible(s, p) && Below(s, p + [a]) && Listing(s, p + [a]) == {}
  {
    var s := ForeignMarkers(p, a, b, f, content);
    var pa, pb, paf := p + [a], p + [b], p + [a, f];
    assert pa[|p|] == a && pb[|p|] == b && Inside(pa, paf) && Below(s, pa);
    assert b in Listing(s, p);
    forall n ensures n !in Listing(s, pa) {
      assert |pa + [n]| == |paf| && |pb| < |paf|;
    }
  }

  lemma AbsentChild(s: State, p: Path, n: string)
    requires Coherent(s) && Visible(s, p) && !Blocked(s, p) && Listed(s, p + [n])
    requires !Exists(Exists(s, p).0, p + [n]).1
    ensures !AllVisible(s, p)
  {
    ExistsIsVisible(Exists(s, p).0, p + [n]);
    ExistsKeepsVisible(s, p, p + [n]);
    ListedAbsent(s, p, n);
  }

  /** A new client on the session in which p/b is live and p/a, with the base file p/a/f, was removed. */
  function ForeignMarkers(p: Path, a: string, b: string, f: string, content: Bytes): State {
    Opened(map[p + [b] := content], {p + [a, f], p + [a]}, {p + [a, f]})
  }

  lemma ListedAbsent(s: State, p: Path, n: string)
    requires !Blocked(s, p) && Listed(s, p + [n]) && !Visible(s, p + [n])
    ensures !AllVisible(s, p)
  {
    var c := p + [n];
    assert c[..|p|] == p && c[..|c|] == c;
    assert Visited(s, p, c);
  }

  // ---------------------------------------------------------------- mkdir

  /**
   Reading and then removing the only file d/x/f of a session leaves the directory d in the cache although it no
   longer exists, and creating d again is refused.
   */
  lemma MkdirRefusesStaleDirectory(d: Path, x: string, f: string, content: Bytes, s1: State, s2: State)
    requires |d| == 1
    requires Step(Opened(map[d + [x, f] := content], {}, {}), Read(d + [x, f]), s1)
    requires Step(s1, Remove(d + [x, f]), s2)
    ensures Coherent(s2) && Mkdir(s2, d, true).1 == Err(EEXIST)
  {
    StaleCached(d, x, f, content, s1, s2);
    ExistsIsVisible(s2, d);
    FailedExists(s2, d, d);
  }

  lemma StaleCached(d: Path, x: string, f: string, content: Bytes, s1: State, s2: State)
    requires |d| == 1
    requires Step(Opened(map[d + [x, f] := content], {}, {}), Read(d + [x, f]), s1)
    requires Step(s1, Remove(d + [x, f]), s2)
    ensures Coherent(s2) && d in s2.cache && !Visible(s2, d)
  {
    var dxf := d + [x, f];
    StaleRead(d, x, f, content);
    FileRemovalSets(s1, dxf, s2);
    RemovedFileMarker(s1, dxf, s2);
    assert !Within(dxf, d) && SameAt(s1, s2, d);
    assert |Parent(dxf)| == 2;
    NothingThere(s2, d, dxf);
  }

  lemma StaleRead(d: Path, x: string, f: string, content: Bytes)
    requires |d| == 1
    ensures
      var s1 := ReadFileBuffer(Opened(map[d + [x, f] := content], {}, {}), d + [x, f]).0;
      && Coherent(s1) && CachedFile(s1, d + [x, f]) && d in s1.cache && !Tracked(s1, d)
      && s1.files.Keys == {d + [x, f]} && s1.basePaths == {} && s1.markers == {}
  {
    var s0, dxf := Opened(map[d + [x, f] := content], {}, {}), d + [x, f];
    assert Inside(d, dxf) && d in Ancestors(dxf) && d != dxf;
    ReadCachesParents(s0, dxf, d);
  }

  lemma ReadCachesParents(s: State, p: Path, a: Path)
    requires Coherent(s) && p in s.files && a in Ancestors(p) && !Tracked(s, p)
    requires s.notExistsAsFile == {}
    ensures var s1 := ReadFileBuffer(s, p).0;
      Coherent(s1) && CachedFile(s1, p) && a in s1.cache && s1.files == s.files && s1.markers == s.markers
      && s1.basePaths == s.basePaths && s1.modified == s.modified && s1.deleted == s.deleted
      && s1.loadedDirs == s.loadedDirs && s1.loadedFiles == s.loadedFiles + {p}
      && s1.notExistsAsDir == s.notExistsAsDir && s1.notExistsAsFile == s.notExistsAsFile
  {
    FileLookup(s, p);
  }

  lemma RemovedFileMarker(s: State, p: Path, s': State)
    requires Coherent(s) && CachedFile(s, p) && Removed(s, p, s')
    ensures s'.markers == s.markers + {p}
  {
    OnlyItself(s, p);
  }

  /** With one deletion marker deeper than its children and no files, the directory `d` does not exist. */
  lemma NothingThere(s: State, d: Path, marker: Path)
    requires s.files.Keys == {} && s.basePaths == {} && s.markers == {marker} && d != [] && Parent(marker) != d
    requires !Tracked(s, d)
    ensures !Visible(s, d)
  {
    forall n ensures n !in Listing(s, d) {}
  }

  /** `mkdir -p p` has to create `c`: it and everything from it down to `p` is invisible. */
  ghost predicate ToCreate(s: State, p: Path, c: Path) {
    c != [] && Within(c, p) && (forall e :: Within(c, e) && Within(e, p) ==> !Visible(s, e))
  }

  /** Looking up the directory `g` for the first time will cache its listed child `c`, even when `c` was deleted. */
  ghost predicate LookupCaches(s: State, g: Path, c: Path) {
    g != [] && Visible(s, g) && !Tracked(s, g) && g !in s.files && Below(s, c)
  }

  /** No directory to be created is in the cache, or gets there while its parent is looked up. */
  ghost predicate MkdirClear(s: State, p: Path) {
    forall c :: ToCreate(s, p, c) ==> c !in s.cache && !LookupCaches(s, Parent(c), c)
  }

  /** A lookup that fails changes no other answer and leaves the cache as it is. */
  lemma FailedExists(s: State, p: Path, c: Path)
    requires !Visible(s, p)
    ensures Exists(s, p).0.cache == s.cache
    ensures c != p ==> Visible(Exists(s, p).0, c) == Visible(s, c) && Tracked(Exists(s, p).0, c) == Tracked(s, c)
    ensures Below(Exists(s, p).0, c) == Below(s, c) && Exists(s, p).0.files == s.files
  {
    ExistsIsVisible(s, p);
    SameRemote(s, Exists(s, p).0, c);
  }

  /** A lookup caches nothing deeper than the children of what it looks up. */
  lemma ExistsCachesShallow(s: State, p: Path, q: Path)
    requires q !in s.cache && |q| > |p| + 1
    ensures q !in Exists(s, p).0.cache
  {
    var s1 := EnsureFileLoaded(s, p).0;
    assert q !in s1.cache;
    DirLookupCachesShallow(s1, p, q);
  }

  lemma DirLookupCachesShallow(s: State, p: Path, q: Path)
    requires q !in s.cache && |q| > |p| + 1
    ensures q !in EnsureDirLoaded(s, p).0.cache
  {
    forall n ensures q !in Ancestors(p + [n]) + {p + [n]} {}
    assert q !in Ancestors(p) + {p};
  }

  /** A lookup of the parent caches a child that was not cached exactly when `LookupCaches` says so. */
  lemma ExistsCachesChild(s: State, c: Path)
    requires Coherent(s) && c !in s.cache && !Visible(s, c) && Parent(c) != [] && Visible(s, Parent(c))
    ensures c in Exists(s, Parent(c)).0.cache <==> LookupCaches(s, Parent(c), c)
  {
    var g := Parent(c);
    assert c == g + [c[|g|]];
    var s1 := EnsureFileLoaded(s, g).0;
    SameRemote(s, s1, g);
    assert c !in s1.cache && c !in Ancestors(g) + {g};
    assert !Tracked(s, c) && c !in s.files;
    if !Tracked(s, g) && g !in s.files {
      var names := Listing(s1, g);
      var cache := if g in s1.cache then s1.cache else CacheMkdirs(s1.cache, g);
      assert c !in cache;
      OnlyItsName(s1, cache, g, names, c);
    }
  }

  /** A child gets a placeholder through its own name only. */
  lemma OnlyItsName(s: State, cache: map<Path, Node>, g: Path, names: set<string>, c: Path)
    requires |c| == |g| + 1 && Within(g, c) && NeedsPlaceholder(s, cache, c)
    ensures c in Placeholders(s, cache, g, names) <==> c[|g|] in names
  {
    assert c == g + [c[|g|]];
    forall n | n in names && c in Ancestors(g + [n]) + {g + [n]} ensures g + [n] == c {}
  }

  lemma {:induction false} MkdirCachesShallow(s: State, p: Path, q: Path)
    requires q !in s.cache && |q| > |p| + 1
    ensures q !in Mkdir(s, p, true).0.cache
    decreases |p|
  {
    ExistsCachesShallow(s, p, q);
    var (s1, found) := Exists(s, p);
    if !found && Parent(p) != [] {
      MkdirCachesShallow(s1, Parent(p), q);
    }
  }

  /** Creating an invisible directory caches nothing inside it. */
  lemma MkdirCachesNoChild(s: State, p: Path, q: Path)
    requires q !in s.cache && Inside(p, q) && !Visible(s, p)
    ensures q !in Mkdir(s, p, true).0.cache
  {
    FailedExists(s, p, q);
    ExistsIsVisible(s, p);
    if Parent(p) != [] {
      MkdirCachesShallow(Exists(s, p).0, Parent(p), q);
    }
  }

  lemma ClearOfParent(s: State, p: Path)
    requires !Visible(s, p) && p != [] && !Visible(s, Parent(p)) && Parent(p) != []
    ensures MkdirClear(s, p) <==> p !in s.cache && MkdirClear(Exists(s, p).0, Parent(p))
  {
    var s1, g := Exists(s, p).0, Parent(p);
    FailedExists(s, p, p);
    assert forall c :: Within(c, p) <==> c == p || Within(c, g);
    forall c | Within(c, g)
      ensures ToCreate(s1, g, c) == ToCreate(s, p, c)
      ensures LookupCaches(s1, Parent(c), c) == LookupCaches(s, Parent(c), c)
    {
      forall e | Within(c, e) && Within(e, g) ensures Visible(s1, e) == Visible(s, e) { FailedExists(s, p, e); }
      FailedExists(s, p, Parent(c));
      FailedExists(s, p, c);
    }
    assert ToCreate(s, p, p);
  }

  /** `mkdir -p p` succeeds exactly when it is clear; otherwise the in-memory cache refuses a directory it holds. */
  lemma {:induction false} MkdirSucceedsIff(s: State, p: Path)
    requires Coherent(s) && p != []
    ensures Mkdir(s, p, true).1.Ok? <==> MkdirClear(s, p)
    decreases |p|
  {
    ExistsIsVisible(s, p);
    assert Within(p, p);
    var s1, g := Exists(s, p).0, Parent(p);
    assert Visible(s, p) ==> forall c :: !ToCreate(s, p, c);
    if !Visible(s, p) {
      ExistsLookup(s, p);
      FailedExists(s, p, g);
      if g == [] {
        assert forall c :: c != [] && Within(c, p) ==> c == p;
        assert ToCreate(s, p, p);
      } else if Visible(s, g) {
        TopMkdir(s, p);
      } else {
        ClearOfParent(s, p);
        MkdirSucceedsIff(s1, g);
        if p !in s.cache { MkdirCachesNoChild(s1, g, p); }
        MkdirKeepsKeys(s1, g, p);
      }
    }
  }

  lemma TopMkdir(s: State, p: Path)
    requires Coherent(s) && !Visible(s, p) && p != [] && Parent(p) != [] && Visible(s, Parent(p))
    ensures Mkdir(s, p, true).1.Ok? <==> MkdirClear(s, p)
  {
    var s1, g := Exists(s, p).0, Parent(p);
    ExistsIsVisible(s, p);
    ExistsLookup(s, p);
    FailedExists(s, p, g);
    FailedExists(s, p, p);
    ExistsIsVisible(s1, g);
    ExistsAnswer(s1, g);
    ExistsLookup(s1, g);
    assert Mkdir(s1, g, true) == (Exists(s1, g).0, Ok(()));
    StillInvisible(s, p);
    if p !in s.cache { ExistsCachesChild(s1, p); }
    assert forall c :: Within(c, p) <==> c == p || Within(c, g);
    assert Within(p, p) && Within(g, g);
    assert forall c :: ToCreate(s, p, c) <==> c == p;
  }

  lemma StillInvisible(s: State, p: Path)
    requires Coherent(s) && !Visible(s, p)
    ensures !Visible(Exists(s, p).0, p)
  {
    ExistsIsVisible(s, p);
    SameRemote(s, Exists(s, p).0, p);
  }

  /** A created directory is in the cache, and what was cached stays cached. */
  lemma {:induction false} MkdirKeepsKeys(s: State, p: Path, q: Path)
    requires Coherent(s)
    ensures q in s.cache ==> q in Mkdir(s, p, true).0.cache
    ensures Mkdir(s, p, true).1.Ok? ==> p in Mkdir(s, p, true).0.cache
    decreases |p|
  {
    ExistsLookup(s, p);
    ExistsAnswer(s, p);
    var (s1, found) := Exists(s, p);
    if !found && Parent(p) != [] {
      MkdirKeepsKeys(s1, Parent(p), q);
    }
  }
}
