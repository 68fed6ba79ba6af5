/** The runs of SessionFindings, carried out by the client: what the calls return, and what they leave. */
module SessionScenarios {
  import opened Wrappers
  import opened SessionState
  import opened SessionCoherence
  import opened SessionVisible
  import opened SessionRemoval
  import opened SessionTidy
  import opened SessionFindings
  import opened SessionFs

  /** Three writes and two removals of files, after which `rm -r d` returns normally and leaves a live file inside d. */
  method RemoveAndMiss(d: Path, x: string, y: string, z: string, w: string, content: Bytes)
    returns (fs: ConvexSessionFs, result: Result<(), FsError>)
    requires d != []
    ensures result == Ok(()) && d + [x, y, w] in fs.files
  {
    fs := new ConvexSessionFs(true, (bytes: Bytes) => bytes, map[], {}, {});
    var _ := fs.Write(d + [x, y, z], content);
    ghost var s1 := fs.S();
    FirstWrite(d, x, y, z, content);
    RemoveFile(fs, d + [x, y, z]);
    ghost var s2 := fs.S();
    var _ := fs.Write(d + [x], content);
    ghost var s3 := fs.S();
    FirstStage(d, x, y, z, content, s1, s2);
    SecondWriteKeeps(s2, d + [x], d + [x, y], content);
    RemoveFile(fs, d + [x]);
    ghost var s4 := fs.S();
    var _ := fs.Write(d + [x, y, w], content);
    RemovalCanMissAFile(d, x, y, z, w, content, s1, s2, s3, s4, fs.S());
    ghost var depth := ShallowExists(fs.S(), d);
    result := fs.Rm(d, true, false, depth);
  }

  /** `rm` of a file that the client has in its cache. */
  method RemoveFile(fs: ConvexSessionFs, p: Path)
    requires fs.allowWrites && Coherent(fs.S()) && CachedFile(fs.S(), p)
    modifies fs
    ensures Removed(old(fs.S()), p, fs.S())
  {
    CachedFileVisible(fs.S(), p);
    ghost var depth := ShallowExists(fs.S(), p);
    var _ := fs.Rm(p, true, false, depth);
  }

  /** On a session with old deletion markers, `rm -r p` of an existing directory returns ENOENT. */
  method RemoveOverForeignMarkers(p: Path, a: string, b: string, f: string, content: Bytes)
    returns (found: bool, result: Result<(), FsError>)
    requires a != b && p != []
    ensures found && result == Err(ENOENT)
  {
    var fs := new ConvexSessionFs(
      true, (bytes: Bytes) => bytes, map[p + [b] := content], {p + [a, f], p + [a]}, {p + [a, f]});
    ForeignMarkerStopsRemoval(p, a, b, f, content);
    ghost var s := fs.S();
    found := fs.PathExists(p);
    ExistsLookup(s, p);
    ExistsKeepsReached(s, p);
    ghost var depth := ShallowExists(fs.S(), p);
    result := fs.Rm(p, true, false, depth);
  }

  /** A file that is moved onto itself is lost. */
  method MoveOntoItself(p: Path, content: Bytes) returns (fs: ConvexSessionFs, result: Result<(), FsError>)
    ensures result == Ok(()) && p !in fs.files
  {
    fs := new ConvexSessionFs(true, (bytes: Bytes) => bytes, map[p := content], {}, {});
    ghost var s := fs.S();
    ExistsSettles(s, p);
    MarksAre(s.modified, Parent(p));
    result := fs.Mv(p, p, 0);
  }
}
