/**
 Whole runs of one client over all its operations: whatever the order of reads, lookups, listings, writes, appends,
 directory creations, removals, copies and moves, a read tells the truth about the remote, and the remote changed only
 where the calls say.
 */
module SessionRuns {
  import opened Wrappers
  import opened SessionState
  import opened SessionCoherence
  import opened SessionRemoval
  import opened SessionTidy
  import opened SessionCopy
  import opened SessionFs

  /** The calls. `mv` is a copy and, when this succeeds, a recursive removal of the source: two calls of a run. */
  datatype Call =
    | CallRead(p: Path)
    | CallExists(p: Path)
    | CallStat(p: Path)
    | CallList(p: Path)
    | CallWrite(p: Path, content: Bytes)
    | CallAppend(p: Path, content: Bytes)
    | CallMkdir(p: Path, recursive: bool)
    | CallRm(p: Path, recursive: bool, force: bool, result: Result<(), FsError>)
    | CallCp(src: Path, dest: Path, ok: bool)
    | CallCpFile(src: Path, dest: Path)

  /** The guards without which a call can make reads lie, by `WriteFaithfulIff` and `AppendFaithfulIff`. */
  ghost predicate Permitted(s: State, call: Call, depth: nat, reencode: Bytes -> Bytes) {
    match call
    case CallWrite(p, _) => WriteSafe(s, p)
    case CallAppend(p, content) => AppendSafe(s, p, content, reencode)
    case CallCp(src, dest, _) => CpReady(s, src, dest, src, dest, depth)
    case CallCpFile(src, dest) => FileMovable(s, src, dest)
    case _ => true
  }

  /** What the call does to the state; copies and removals as their methods promise. */
  ghost predicate Performs(s: State, call: Call, s': State, reencode: Bytes -> Bytes) {
    match call
    case CallRead(p) => s' == ReadFileBuffer(s, p).0
    case CallExists(p) => s' == Exists(s, p).0
    case CallStat(p) => s' == Stat(s, p).0
    case CallList(p) => s' == Readdir(s, p).0
    case CallWrite(p, content) => s' == WriteFile(s, p, content)
    case CallAppend(p, content) => s' == AppendFile(s, p, content, reencode).0
    case CallMkdir(p, recursive) => s' == Mkdir(s, p, recursive).0
    case CallRm(p, recursive, force, result) => RmOutcome(s, p, recursive, force, s', result)
    case CallCp(src, dest, ok) => CpOutcome(s, src, dest, src, s', ok)
    case CallCpFile(src, dest) => src in s.files && s' == WriteFile(Exists(s, src).0, dest, s.files[src])
  }

  /** The paths at which a call may change the remote. */
  ghost predicate Touches(call: Call, q: Path) {
    match call
    case CallWrite(p, _) => q == p
    case CallAppend(p, _) => q == p
    case CallRm(p, _, _, _) => Within(p, q)
    case CallCp(_, dest, _) => Within(dest, q)
    case CallCpFile(_, dest) => q == dest
    case _ => false
  }

  ghost predicate SameFile(s: State, s': State, q: Path) {
    (q in s'.files <==> q in s.files) && (q in s.files ==> s'.files[q] == s.files[q])
  }

  predicate Looks(call: Call) {
    call.CallRead? || call.CallExists? || call.CallStat? || call.CallList? || call.CallMkdir?
  }

  lemma CallKeepsCoherence(s: State, call: Call, s': State, depth: nat, reencode: Bytes -> Bytes)
    requires Coherent(s) && Permitted(s, call, depth, reencode) && Performs(s, call, s', reencode)
    ensures Coherent(s') && forall q :: !Touches(call, q) ==> SameFile(s, s', q)
  {
    if Looks(call) {
      LookKeepsCoherence(s, call, s', reencode);
    } else if call.CallRm? || call.CallCp? {
      TreeCallKeepsCoherence(s, call, s', reencode);
    } else {
      match call
      case CallWrite(p, content) => WriteKeepsCoherence(s, p, content);
      case CallAppend(p, content) => AppendKeepsCoherence(s, p, content, reencode);
      case CallCpFile(src, dest) => CpFileTouches(s, src, dest);
    }
  }

  lemma TreeCallKeepsCoherence(s: State, call: Call, s': State, reencode: Bytes -> Bytes)
    requires (call.CallRm? || call.CallCp?) && Performs(s, call, s', reencode)
    ensures Coherent(s') && forall q :: !Touches(call, q) ==> SameFile(s, s', q)
  {
    match call
    case CallRm(p, recursive, force, result) => RmTouches(s, p, recursive, force, s', result);
    case CallCp(src, dest, ok) => CpTouches(s, src, dest, s', ok);
  }

  lemma LookKeepsCoherence(s: State, call: Call, s': State, reencode: Bytes -> Bytes)
    requires Coherent(s) && Looks(call) && Performs(s, call, s', reencode)
    ensures Coherent(s') && s'.files == s.files
  {
    match call
    case CallRead(p) => FileLookup(s, p);
    case CallExists(p) => ExistsLookup(s, p);
    case CallStat(p) => StatLookup(s, p);
    case CallList(p) => DirLookup(s, p);
    case CallMkdir(p, recursive) => MkdirKeepsCoherence(s, p, recursive);
  }

  lemma CpTouches(s: State, src: Path, dest: Path, s': State, ok: bool)
    requires CpOutcome(s, src, dest, src, s', ok)
    ensures Coherent(s') && forall q :: !Within(dest, q) ==> SameFile(s, s', q)
  {
  }

  lemma CpFileTouches(s: State, src: Path, dest: Path)
    requires FileMovable(s, src, dest) && src in s.files
    ensures var s' := WriteFile(Exists(s, src).0, dest, s.files[src]);
      Coherent(s') && forall q :: q != dest ==> SameFile(s, s', q)
  {
    FileCopySteps(s, src);
    WriteKeepsCoherence(Exists(s, src).0, dest, s.files[src]);
  }

  lemma RmTouches(s: State, p: Path, recursive: bool, force: bool, s': State, result: Result<(), FsError>)
    requires RmOutcome(s, p, recursive, force, s', result)
    ensures Coherent(s') && forall q :: !Within(p, q) ==> SameFile(s, s', q)
  {
    forall q | !Within(p, q) ensures SameAt(s, s', q) {}
  }

  ghost predicate IsRunOf(states: seq<State>, calls: seq<Call>, depth: nat, reencode: Bytes -> Bytes) {
    && |states| == |calls| + 1
    && (forall i :: 0 <= i < |calls| ==>
          Permitted(states[i], calls[i], depth, reencode) && Performs(states[i], calls[i], states[i + 1], reencode))
  }

  lemma RunPrefix(states: seq<State>, calls: seq<Call>, depth: nat, reencode: Bytes -> Bytes, n: nat)
    requires IsRunOf(states, calls, depth, reencode) && n == |calls| - 1
    ensures IsRunOf(states[..n + 1], calls[..n], depth, reencode)
    ensures Permitted(states[n], calls[n], depth, reencode) && Performs(states[n], calls[n], states[n + 1], reencode)
  {
  }

  /**
   Over every run of permitted calls from a coherent state, such as that of a newly opened client: at its end a read
   returns the remote bytes of a live path and fails on any other, and a path that no call touched is as it was at the
   beginning. A prefix of a run is a run, so reads are truthful at every moment.
   */
  lemma {:induction false} EveryRunIsFaithful(states: seq<State>, calls: seq<Call>, depth: nat,
                                              reencode: Bytes -> Bytes, q: Path)
    requires IsRunOf(states, calls, depth, reencode) && Coherent(states[0])
    ensures Coherent(states[|calls|]) && Faithful(states[|calls|])
    ensures (forall i :: 0 <= i < |calls| ==> !Touches(calls[i], q)) ==> SameFile(states[0], states[|calls|], q)
    decreases |calls|
  {
    if calls == [] {
    } else {
      var n := |calls| - 1;
      RunPrefix(states, calls, depth, reencode, n);
      EveryRunIsFaithful(states[..n + 1], calls[..n], depth, reencode, q);
      CallKeepsCoherence(states[n], calls[n], states[n + 1], depth, reencode);
    }
    CoherentIsFaithful(states[|calls|]);
  }
}
