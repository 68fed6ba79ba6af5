/**
 The state of one session filesystem client and the remote overlay behind it, as values, with one function per
 operation of the client. A path is its list of segments; the root is the empty list (module Paths relates this to
 strings). The class in module SessionFs performs the same operations step by step on fields.

 Remote side (services/backend/convex/fs/overlay.ts): `files` are the files a read finds, i.e. the base revision
 files overlaid by this session's records; `markers` are the paths whose session record says "deleted"; `basePaths`
 are the paths of the base revision, which the directory listing consults without looking at the markers.
 */
module SessionState {
  import opened Wrappers

  type Path = seq<string>
  type Bytes = seq<bv8>

  datatype Node = File(content: Bytes) | Dir

  datatype FsError = ENOENT | EISDIR | EEXIST | ENOTEMPTY | EROFS

  datatype State = State(
    files: map<Path, Bytes>,
    markers: set<Path>,
    basePaths: set<Path>,
    cache: map<Path, Node>,
    loadedFiles: set<Path>,
    loadedDirs: set<Path>,
    notExistsAsFile: set<Path>,
    notExistsAsDir: set<Path>,
    modified: set<Path>,
    deleted: set<Path>)

  /** A client just constructed on a remote session. */
  function Opened(files: map<Path, Bytes>, markers: set<Path>, basePaths: set<Path>): State {
    State(files, markers, basePaths, map[[] := Dir], {}, {}, {}, {}, {}, {})
  }

  function Parent(p: Path): Path {
    if p == [] then [] else p[..|p| - 1]
  }

  /** `q` is `p` or lies somewhere in the directory `p`. */
  predicate Within(p: Path, q: Path) {
    p <= q
  }

  /** `q` lies strictly inside the directory `p`. */
  predicate Inside(p: Path, q: Path) {
    p < q
  }

  /** The proper ancestors of a path other than the root. */
  function Ancestors(p: Path): (r: set<Path>)
    ensures forall a :: a in r <==> a != [] && Inside(a, p)
  {
    var r := set i | 1 <= i < |p| :: p[..i];
    assert forall a | a != [] && Inside(a, p) :: a == p[..|a|];
    r
  }

  // ---------------------------------------------------------------- remote overlay

  /** Some file of the revision or of the session lies strictly below `p`; base files count even when deleted. */
  predicate Below(s: State, p: Path) {
    (exists q :: q in s.files && Inside(p, q)) || (exists q :: q in s.basePaths && Inside(p, q))
  }

  /** The names in directory `p` that lead to some of the paths. */
  function FirstNames(paths: set<Path>, p: Path): (r: set<string>)
    ensures forall n :: n in r <==> exists q :: q in paths && Within(p + [n], q)
  {
    var r := set q | q in paths && Inside(p, q) :: q[|p|];
    assert forall n: string, q: Path | q in paths && Within(p + [n], q) :: Inside(p, q) && q[|p|] == n;
    assert forall q: Path | q in paths && Inside(p, q) :: Within(p + [q[|p|]], q);
    r
  }

  /** The names the remote lists in directory `p`: its live files, and every first segment leading to a file below. */
  function Listing(s: State, p: Path): (r: set<string>)
    ensures forall n :: n in r <==> p + [n] in s.files || Below(s, p + [n])
  {
    var deeper := set q | q in s.basePaths && |p| + 1 < |q|;
    assert forall n: string, q: Path :: Within(p + [n], q) <==> q == p + [n] || Inside(p + [n], q);
    assert forall n: string, q: Path | q in deeper :: Within(p + [n], q) <==> Inside(p + [n], q);
    FirstNames(s.files.Keys, p) + FirstNames(deeper, p)
  }

  /** The remote's `fileStat(p).isDirectory`: no record and no base file at `p`, but one directly inside it. */
  predicate StatIsDirectory(s: State, p: Path) {
    p !in s.files && p !in s.markers && p !in s.basePaths
    && exists q :: q in s.files.Keys + s.markers + s.basePaths && q != [] && Parent(q) == p && p != []
  }

  // ---------------------------------------------------------------- in-memory cache (a plain path map)

  function AddDirs(cache: map<Path, Node>, dirs: set<Path>): map<Path, Node> {
    map q | q in cache.Keys + dirs :: if q in cache then cache[q] else Dir
  }

  function CacheMkdirs(cache: map<Path, Node>, p: Path): map<Path, Node> {
    AddDirs(cache, Ancestors(p) + {p})
  }

  function CacheWrite(cache: map<Path, Node>, p: Path, content: Bytes): map<Path, Node> {
    AddDirs(cache, Ancestors(p))[p := File(content)]
  }

  function CacheRead(cache: map<Path, Node>, p: Path): Result<Bytes, FsError> {
    if p !in cache then Err(ENOENT)
    else match cache[p]
      case Dir => Err(EISDIR)
      case File(content) => Ok(content)
  }

  /** `cache.rm(p, {force: true})` with its error ignored: a directory with cached entries stays. */
  function CacheRm(cache: map<Path, Node>, p: Path): map<Path, Node> {
    if p in cache && cache[p].Dir? && (exists q :: q in cache && Inside(p, q)) then cache else cache - {p}
  }

  predicate CachedFile(s: State, p: Path) {
    p in s.cache && s.cache[p].File?
  }

  // ---------------------------------------------------------------- client operations

  predicate Tracked(s: State, p: Path) {
    p in s.modified || p in s.loadedFiles || p in s.loadedDirs
  }

  function EnsureFileLoaded(s: State, p: Path): (State, bool) {
    if p in s.deleted then (s, false)
    else if p in s.modified then (s, true)
    else if p in s.loadedFiles then (s, true)
    else if p in s.notExistsAsFile then (s, false)
    else if p !in s.files then (s.(notExistsAsFile := s.notExistsAsFile + {p}), false)
    else (s.(loadedFiles := s.loadedFiles + {p}, cache := CacheWrite(s.cache, p, s.files[p])), true)
  }

  /** A listed name becomes a cached placeholder directory when it is one, is untracked, and is not cached. */
  predicate NeedsPlaceholder(s: State, cache: map<Path, Node>, c: Path) {
    !Tracked(s, c) && c !in s.files && c !in cache
  }

  function Placeholders(s: State, cache: map<Path, Node>, p: Path, names: set<string>): (r: set<Path>)
    ensures forall q :: q in r <==>
      exists n :: n in names && NeedsPlaceholder(s, cache, p + [n]) && q in Ancestors(p + [n]) + {p + [n]}
  {
    set n, q | n in names && NeedsPlaceholder(s, cache, p + [n]) && q in Ancestors(p + [n]) + {p + [n]} :: q
  }

  function EnsureDirLoaded(s: State, p: Path): (State, bool) {
    if p in s.deleted then (s, false)
    else if p in s.modified then (s, true)
    else if p in s.loadedDirs then (s, true)
    else if p in s.notExistsAsDir then (s, false)
    else
      var names := Listing(s, p);
      if names == {} && !StatIsDirectory(s, p) && p != [] then
        (s.(notExistsAsDir := s.notExistsAsDir + {p}), false)
      else
        var cache := if p in s.cache then s.cache else CacheMkdirs(s.cache, p);
        (s.(cache := AddDirs(cache, Placeholders(s, cache, p, names)), loadedDirs := s.loadedDirs + {p}), true)
  }

  function ReadFileBuffer(s: State, p: Path): (State, Result<Bytes, FsError>) {
    if p in s.deleted then (s, Err(ENOENT))
    else if p in s.modified then (s, CacheRead(s.cache, p))
    else
      var (s', loaded) := EnsureFileLoaded(s, p);
      if !loaded then (s', Err(ENOENT)) else (s', CacheRead(s'.cache, p))
  }

  function Exists(s: State, p: Path): (State, bool) {
    if p in s.deleted then (s, false)
    else if Tracked(s, p) then (s, p in s.cache)
    else if p in s.notExistsAsFile && p in s.notExistsAsDir then (s, false)
    else
      var (s', isFile) := EnsureFileLoaded(s, p);
      if isFile then (s', true) else EnsureDirLoaded(s', p)
  }

  /** The value is "is a regular file". */
  function CacheStat(cache: map<Path, Node>, p: Path): Result<bool, FsError> {
    if p in cache then Ok(cache[p].File?) else Err(ENOENT)
  }

  function Stat(s: State, p: Path): (State, Result<bool, FsError>) {
    if p in s.deleted then (s, Err(ENOENT))
    else if Tracked(s, p) then (s, CacheStat(s.cache, p))
    else
      var (s1, isFile) := EnsureFileLoaded(s, p);
      if isFile then (s1, CacheStat(s1.cache, p)) else
      var (s2, isDir) := EnsureDirLoaded(s1, p);
      if isDir then (s2, CacheStat(s2.cache, p)) else (s2, Err(ENOENT))
  }

  function LocalNames(s: State, p: Path): (r: set<string>)
    ensures forall n :: n in r <==> p + [n] in s.modified && p + [n] in s.cache
  {
    var r := set q | q in s.modified && |q| == |p| + 1 && Inside(p, q) && q in s.cache :: q[|p|];
    assert forall q: Path | |q| == |p| + 1 && Inside(p, q) :: q == p + [q[|p|]];
    assert forall n: string :: (p + [n])[|p|] == n && Inside(p, p + [n]);
    r
  }

  function RemoteNames(s: State, p: Path): set<string> {
    set n | n in Listing(s, p) && p + [n] !in s.deleted
  }

  function Readdir(s: State, p: Path): (State, Result<set<string>, FsError>) {
    if p in s.deleted then (s, Err(ENOENT))
    else
      var (s', loaded) := EnsureDirLoaded(s, p);
      if !loaded && p != [] then (s', Err(ENOENT))
      else (s', Ok(RemoteNames(s', p) + LocalNames(s', p)))
  }

  /** What `markParentsModified` adds, starting at directory `d`: it climbs until the root or a modified path. */
  function Marks(modified: set<Path>, d: Path): set<Path>
    decreases |d|
  {
    if d == [] || d in modified then {} else Marks(modified, Parent(d)) + {d}
  }

  lemma {:induction false} MarksAre(modified: set<Path>, d: Path)
    ensures forall a :: a in Marks(modified, d) <==>
      a != [] && Within(a, d) && (forall c :: Within(a, c) && Within(c, d) ==> c !in modified)
    decreases |d|
  {
    assert Within(d, d);
    if d != [] && d !in modified {
      MarksAre(modified, Parent(d));
      assert forall a: Path :: Within(a, d) <==> a == d || Within(a, Parent(d));
    }
  }

  /** A state whose directories `marks` were marked modified. */
  function Marked(s: State, marks: set<Path>): State {
    s.(modified := s.modified + marks, loadedDirs := s.loadedDirs + marks,
       deleted := s.deleted - marks, notExistsAsDir := s.notExistsAsDir - marks)
  }

  lemma StateMarkOne(s: State, marks: set<Path>, d: Path)
    ensures Marked(Marked(s, marks), {d}) == Marked(s, marks + {d})
  {
    assert s.modified + marks + {d} == s.modified + (marks + {d});
    assert s.loadedDirs + marks + {d} == s.loadedDirs + (marks + {d});
    assert s.deleted - marks - {d} == s.deleted - (marks + {d});
    assert s.notExistsAsDir - marks - {d} == s.notExistsAsDir - (marks + {d});
  }

  function MarkParentsModified(s: State, p: Path): State {
    Marked(s, Marks(s.modified, Parent(p)))
  }

  /** The client after the parent directory was looked up and cached, and before the file is written. */
  function ParentPrepared(s: State, p: Path): State {
    if Parent(p) == [] then s
    else
      var s' := EnsureDirLoaded(s, Parent(p)).0;
      if Parent(p) in s'.cache then s' else s'.(cache := CacheMkdirs(s'.cache, Parent(p)))
  }

  function WriteFile(s: State, p: Path, content: Bytes): State {
    var s1 := ParentPrepared(s, p);
    var s2 := s1.(cache := CacheWrite(s1.cache, p, content),
                  files := s1.files[p := content], markers := s1.markers - {p},
                  modified := s1.modified + {p});
    var s3 := MarkParentsModified(s2, p);
    s3.(deleted := s3.deleted - {p}, notExistsAsFile := s3.notExistsAsFile - {p},
        notExistsAsDir := s3.notExistsAsDir - {p})
  }

  /** `reencode` is what decoding a byte string as UTF-8 text and encoding it again yields. */
  function AppendFile(s: State, p: Path, content: Bytes, reencode: Bytes -> Bytes): (State, Result<(), FsError>) {
    var s1 := if p in s.modified then s else EnsureFileLoaded(s, p).0;
    if p in s1.cache then
      match s1.cache[p]
      case Dir => (s1, Err(EISDIR))
      case File(before) =>
        var s2 := s1.(cache := s1.cache[p := File(before + content)],
                      files := s1.files[p := reencode(before + content)], markers := s1.markers - {p});
        (s2.(modified := s2.modified + {p}, deleted := s2.deleted - {p}), Ok(()))
    else
      var s2 := WriteFile(s1, p, content);
      (s2.(modified := s2.modified + {p}, deleted := s2.deleted - {p}), Ok(()))
  }

  function Mkdir(s: State, p: Path, recursive: bool): (State, Result<(), FsError>)
    decreases |p|
  {
    var (s1, found) := Exists(s, p);
    if found then (s1, if recursive then Ok(()) else Err(EEXIST))
    else if Parent(p) == [] then MkdirHere(s1, p)
    else if recursive then
      var (s2, made) := Mkdir(s1, Parent(p), true);
      if made.Err? then (s2, made) else MkdirHere(s2, p)
    else
      var (s2, parentFound) := Exists(s1, Parent(p));
      if !parentFound then (s2, Err(ENOENT)) else MkdirHere(s2, p)
  }

  /** The last part of `mkdir`: create the one directory `p` in the cache and record it. */
  function MkdirHere(s: State, p: Path): (State, Result<(), FsError>) {
    if p in s.cache then (s, Err(EEXIST))
    else if Parent(p) != [] && Parent(p) !in s.cache then (s, Err(ENOENT))
    else
      (s.(cache := s.cache[p := Dir], modified := s.modified + {p}, loadedDirs := s.loadedDirs + {p},
          deleted := s.deleted - {p}, notExistsAsFile := s.notExistsAsFile - {p},
          notExistsAsDir := s.notExistsAsDir - {p}), Ok(()))
  }

  /** The last part of `rm`, once the entries of a directory are gone. */
  function RemoveEntry(s: State, p: Path): State {
    s.(files := s.files - {p}, markers := s.markers + {p},
       deleted := s.deleted + {p}, modified := s.modified - {p},
       loadedFiles := s.loadedFiles - {p}, loadedDirs := s.loadedDirs - {p},
       cache := CacheRm(s.cache, p))
  }
}
