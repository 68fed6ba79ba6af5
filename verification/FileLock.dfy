/**
 The per-file mutation lock of the local secrets store (apps/local-mcp/src/credential-store.ts): a chain of promises
 kept in a map from file paths to the last one. Concurrent calls are interleaved at every await: enqueue, enter, read,
 write, release. In every interleaving the calls on one file run one at a time in the order in which they were made.
 */
module FileLock {
  import opened Wrappers

  type Path = string
  type Entries = map<string, string>

  /** Assigning a string to this name of an object literal has no effect. */
  const PROTO := "__proto__"

  datatype Op = SetSecret(name: string, value: string) | DeleteSecret(name: string)

  /** The entries an operation writes after it has read `entries`; None when it writes nothing. */
  function NewEntries(op: Op, entries: Entries): Option<Entries> {
    match op
    case SetSecret(name, value) => Some(if name == PROTO then entries else entries[name := value])
    case DeleteSecret(name) => if name in entries then Some(entries - {name}) else None
  }

  /** The file system: a file with no entries left after a deletion is removed; a missing file reads as empty. */
  type Files = map<Path, Entries>

  /** The entries of a file are copied into an object literal one by one. */
  function ReadEntries(files: Files, path: Path): Entries {
    if path in files then files[path] - {PROTO} else map[]
  }

  function WriteEntries(files: Files, path: Path, op: Op, entries: Entries): Files {
    match NewEntries(op, entries)
    case None => files
    case Some(updated) => if op.DeleteSecret? && updated == map[] then files - {path} else files[path := updated]
  }

  /** The whole operation, done alone. */
  function Perform(files: Files, path: Path, op: Op): Files {
    WriteEntries(files, path, op, ReadEntries(files, path))
  }

  /** `Released(done)`: the call is over, having performed its operation or having thrown before. */
  datatype Phase = Waiting | Entered | HasRead(entries: Entries) | Wrote | Released(done: bool)

  /** `previous` is the call whose queued promise this call awaits; None is an already resolved promise. */
  datatype Call = Call(path: Path, op: Op, previous: Option<nat>, phase: Phase)

  datatype State = State(calls: seq<Call>, locks: map<Path, nat>, files: Files)

  datatype Step =
    | Enqueue(path: Path, op: Op)
    | Enter(i: nat)
    | DoRead(i: nat)
    | DoWrite(i: nat)
    | Throw(i: nat)
    | Release(i: nat)

  /** The queued promise of call `i` is resolved: the call and all it waited for were released. */
  predicate Settled(calls: seq<Call>, i: nat)
    requires i < |calls|
    decreases i
  {
    calls[i].phase.Released? &&
    (calls[i].previous.None? || (calls[i].previous.value < i && Settled(calls, calls[i].previous.value)))
  }

  predicate Enabled(s: State, step: Step) {
    match step
    case Enqueue(_, _) => true
    case Enter(i) =>
      && i < |s.calls| && s.calls[i].phase.Waiting?
      && (s.calls[i].previous.None? || (s.calls[i].previous.value < i && Settled(s.calls, s.calls[i].previous.value)))
    case DoRead(i) => i < |s.calls| && s.calls[i].phase.Entered?
    case DoWrite(i) => i < |s.calls| && s.calls[i].phase.HasRead?
    case Throw(i) => i < |s.calls| && (s.calls[i].phase.Entered? || s.calls[i].phase.HasRead?)
    case Release(i) => i < |s.calls| && s.calls[i].phase.Wrote?
  }

  function SetPhase(s: State, i: nat, phase: Phase): State
    requires i < |s.calls|
  {
    s.(calls := s.calls[i := s.calls[i].(phase := phase)])
  }

  /** The `finally` block: resolve the own promise, and drop the map entry if it is still the own one. */
  function LetGo(s: State, i: nat, done: bool): State
    requires i < |s.calls|
  {
    var path := s.calls[i].path;
    var locks := if path in s.locks && s.locks[path] == i then s.locks - {path} else s.locks;
    SetPhase(s, i, Released(done)).(locks := locks)
  }

  function Do(s: State, step: Step): State
    requires Enabled(s, step)
  {
    match step
    case Enqueue(path, op) =>
      var previous := if path in s.locks then Some(s.locks[path]) else None;
      s.(calls := s.calls + [Call(path, op, previous, Waiting)], locks := s.locks[path := |s.calls|])
    case Enter(i) => SetPhase(s, i, Entered)
    case DoRead(i) => SetPhase(s, i, HasRead(ReadEntries(s.files, s.calls[i].path)))
    case DoWrite(i) =>
      var call := s.calls[i];
      SetPhase(s, i, Wrote).(files := WriteEntries(s.files, call.path, call.op, call.phase.entries))
    case Throw(i) => LetGo(s, i, false)
    case Release(i) => LetGo(s, i, true)
  }

  // ---------------------------------------------------------------- the invariant

  ghost predicate SamePath(s: State, j: nat, i: nat) {
    j < |s.calls| && i < |s.calls| && s.calls[j].path == s.calls[i].path
  }

  /** A call waits for the latest earlier call on its file, or all earlier ones were over when it was made. */
  ghost predicate Chained(s: State) {
    forall i: nat :: i < |s.calls| ==> Linked(s, i)
  }

  ghost predicate Linked(s: State, i: nat)
    requires i < |s.calls|
  {
    match s.calls[i].previous
    case Some(p) => p < i && SamePath(s, p, i) && forall k :: p < k < i ==> !SamePath(s, k, i)
    case None => forall k :: 0 <= k < i && SamePath(s, k, i) ==> s.calls[k].phase.Released?
  }

  /** The map entry of a file is its latest call, which is not over; without an entry all calls are over. */
  ghost predicate LocksExact(s: State) {
    && (forall path :: path in s.locks ==>
          s.locks[path] < |s.calls| && s.calls[s.locks[path]].path == path
          && !s.calls[s.locks[path]].phase.Released?)
    && (forall path, i :: path in s.locks && s.locks[path] < i < |s.calls| ==> s.calls[i].path != path)
    && (forall i :: 0 <= i < |s.calls| && s.calls[i].path !in s.locks ==> s.calls[i].phase.Released?)
  }

  /** A call has entered only when every earlier call on its file is over. */
  ghost predicate InOrder(s: State) {
    forall i, k :: 0 <= k < i < |s.calls| && SamePath(s, k, i) && !s.calls[i].phase.Waiting? ==>
      s.calls[k].phase.Released?
  }

  /** What a call has read is still what the file holds. */
  ghost predicate ReadsCurrent(s: State) {
    forall i :: 0 <= i < |s.calls| && s.calls[i].phase.HasRead? ==>
      s.calls[i].phase.entries == ReadEntries(s.files, s.calls[i].path)
  }

  predicate Performed(call: Call) {
    call.phase.Wrote? || call.phase == Released(true)
  }

  /** The files after the operations performed among the first `n` calls, in the order in which they were made. */
  function Folded(initial: Files, calls: seq<Call>, n: nat): Files
    requires n <= |calls|
  {
    if n == 0 then initial
    else
      var before := Folded(initial, calls, n - 1);
      if Performed(calls[n - 1]) then Perform(before, calls[n - 1].path, calls[n - 1].op) else before
  }

  /** Each file is what the operations performed on it leave, applied in the order of the calls. */
  ghost predicate FilesFolded(initial: Files, s: State) {
    forall path :: Entry(s.files, path) == Entry(Folded(initial, s.calls, |s.calls|), path)
  }

  function Entry(files: Files, path: Path): Option<Entries> {
    if path in files then Some(files[path]) else None
  }

  ghost predicate Inv(initial: Files, s: State) {
    Chained(s) && LocksExact(s) && InOrder(s) && ReadsCurrent(s) && FilesFolded(initial, s)
  }

  // ---------------------------------------------------------------- each step keeps it

  /** A settled promise means that every call on the file up to it is over. */
  lemma {:induction false} SettledMeans(s: State, i: nat, k: nat)
    requires Chained(s) && i < |s.calls| && Settled(s.calls, i) && k <= i && SamePath(s, k, i)
    ensures s.calls[k].phase.Released?
    decreases i
  {
    if k < i {
      assert Linked(s, i);
      match s.calls[i].previous
      case None =>
      case Some(p) =>
        if k < p { SettledMeans(s, p, k); }
        else { assert !(p < k < i); SettledMeans(s, p, p); }
    }
  }

  lemma {:induction false} SettledWhenOver(s: State, i: nat)
    requires Chained(s) && i < |s.calls| && forall k :: 0 <= k <= i && SamePath(s, k, i) ==> s.calls[k].phase.Released?
    ensures Settled(s.calls, i)
    decreases i
  {
    if s.calls[i].previous.Some? {
      assert Linked(s, i);
      var p := s.calls[i].previous.value;
      forall k | 0 <= k <= p && SamePath(s, k, p) ensures s.calls[k].phase.Released? {
        assert SamePath(s, k, i);
      }
      SettledWhenOver(s, p);
    }
    assert SamePath(s, i, i);
  }

  lemma {:induction false} FoldedPrefix(initial: Files, a: seq<Call>, b: seq<Call>, n: nat)
    requires n <= |a| && n <= |b|
    requires forall i :: 0 <= i < n ==>
      a[i].path == b[i].path && a[i].op == b[i].op && Performed(a[i]) == Performed(b[i])
    ensures Folded(initial, a, n) == Folded(initial, b, n)
  {
    if n > 0 { FoldedPrefix(initial, a, b, n - 1); }
  }

  /** Operations that were not performed, or are on other files, do not touch a file. */
  lemma {:induction false} FoldedSkips(initial: Files, calls: seq<Call>, m: nat, n: nat, path: Path)
    requires m <= n <= |calls|
    requires forall i :: m <= i < n ==> calls[i].path != path || !Performed(calls[i])
    ensures Entry(Folded(initial, calls, n), path) == Entry(Folded(initial, calls, m), path)
  {
    if m < n { FoldedSkips(initial, calls, m, n - 1, path); }
  }

  lemma PerformLocal(f: Files, g: Files, path: Path, op: Op, q: Path)
    requires Entry(f, path) == Entry(g, path)
    ensures Entry(Perform(f, path, op), path) == Entry(Perform(g, path, op), path)
    ensures q != path ==> Entry(Perform(f, path, op), q) == Entry(f, q)
  {
  }

  lemma EnqueueLinks(s: State, path: Path, op: Op)
    requires Chained(s) && LocksExact(s)
    ensures Chained(Do(s, Enqueue(path, op)))
  {
    var t := Do(s, Enqueue(path, op));
    forall i: nat | i < |t.calls| ensures Linked(t, i) {
      assert forall k :: 0 <= k < i ==> SamePath(t, k, i) == (t.calls[k].path == t.calls[i].path);
      if i < |s.calls| {
        assert Linked(s, i);
        assert forall k :: 0 <= k < i ==> SamePath(t, k, i) == SamePath(s, k, i);
      }
    }
  }

  lemma EnqueueOrders(s: State, path: Path, op: Op)
    requires InOrder(s) && LocksExact(s)
    ensures InOrder(Do(s, Enqueue(path, op))) && LocksExact(Do(s, Enqueue(path, op)))
  {
    var t := Do(s, Enqueue(path, op));
    forall i, k | 0 <= k < i < |t.calls| && SamePath(t, k, i) && !t.calls[i].phase.Waiting?
      ensures t.calls[k].phase.Released?
    {
      assert SamePath(s, k, i);
    }
  }

  lemma EnqueueKeeps(initial: Files, s: State, path: Path, op: Op)
    requires Inv(initial, s)
    ensures Inv(initial, Do(s, Enqueue(path, op)))
  {
    EnqueueLinks(s, path, op);
    EnqueueOrders(s, path, op);
    FoldedPrefix(initial, s.calls, Do(s, Enqueue(path, op)).calls, |s.calls|);
  }

  /** `t` differs from `s` in the phase of call `i` at most: nothing is reopened. */
  ghost predicate Advances(s: State, t: State, i: nat) {
    && i < |s.calls| == |t.calls|
    && t.calls[i] == s.calls[i].(phase := t.calls[i].phase)
    && (s.calls[i].phase.Released? ==> t.calls[i].phase.Released?)
    && forall j :: 0 <= j < |s.calls| && j != i ==> t.calls[j] == s.calls[j]
  }

  lemma AdvancingKeepsChain(s: State, t: State, i: nat)
    requires Chained(s) && Advances(s, t, i)
    ensures Chained(t)
    ensures forall k, j :: 0 <= k < |s.calls| && 0 <= j < |s.calls| ==> SamePath(t, k, j) == SamePath(s, k, j)
  {
    forall j: nat | j < |t.calls| ensures Linked(t, j) {
      assert Linked(s, j);
      assert forall k :: 0 <= k < j ==> SamePath(t, k, j) == SamePath(s, k, j);
    }
  }

  /** A step inside the critical section that performs nothing and writes nothing. */
  lemma QuietStepKeeps(initial: Files, s: State, t: State, i: nat)
    requires Inv(initial, s) && Advances(s, t, i) && t.locks == s.locks && t.files == s.files
    requires !s.calls[i].phase.Released? && !t.calls[i].phase.Released? && !t.calls[i].phase.Waiting?
    requires Performed(s.calls[i]) == Performed(t.calls[i])
    requires t.calls[i].phase.HasRead? ==> t.calls[i].phase.entries == ReadEntries(s.files, s.calls[i].path)
    requires forall k :: 0 <= k < i && SamePath(s, k, i) ==> s.calls[k].phase.Released?
    ensures Inv(initial, t)
  {
    AdvancingKeepsChain(s, t, i);
    FoldedPrefix(initial, s.calls, t.calls, |s.calls|);
  }

  lemma EnterKeeps(initial: Files, s: State, i: nat)
    requires Inv(initial, s) && Enabled(s, Enter(i))
    ensures Inv(initial, Do(s, Enter(i)))
  {
    assert Linked(s, i);
    forall k | 0 <= k < i && SamePath(s, k, i) ensures s.calls[k].phase.Released? {
      if s.calls[i].previous.Some? {
        SettledMeans(s, s.calls[i].previous.value, k);
      }
    }
    QuietStepKeeps(initial, s, Do(s, Enter(i)), i);
  }

  lemma DoReadKeeps(initial: Files, s: State, i: nat)
    requires Inv(initial, s) && Enabled(s, DoRead(i))
    ensures Inv(initial, Do(s, DoRead(i)))
  {
    QuietStepKeeps(initial, s, Do(s, DoRead(i)), i);
  }

  /** While a call is inside, every other call on its file is over or has not entered. */
  lemma Alone(s: State, i: nat, j: nat)
    requires InOrder(s) && i < |s.calls| && j < |s.calls| && i != j && SamePath(s, i, j)
    requires !s.calls[i].phase.Waiting? && !s.calls[i].phase.Released?
    ensures if j < i then s.calls[j].phase.Released? else s.calls[j].phase.Waiting?
  {
    if j < i { assert SamePath(s, j, i); } else { assert SamePath(s, i, j); }
  }

  lemma DoWriteKeeps(initial: Files, s: State, i: nat)
    requires Inv(initial, s) && Enabled(s, DoWrite(i))
    ensures Inv(initial, Do(s, DoWrite(i)))
  {
    var t := Do(s, DoWrite(i));
    AdvancingKeepsChain(s, t, i);
    var path, op := s.calls[i].path, s.calls[i].op;
    assert t.files == Perform(s.files, path, op);
    forall j | 0 <= j < |t.calls| && t.calls[j].phase.HasRead?
      ensures t.calls[j].phase.entries == ReadEntries(t.files, t.calls[j].path)
    {
      if t.calls[j].path == path { Alone(s, i, j); }
      PerformLocal(s.files, s.files, path, op, t.calls[j].path);
    }
    forall q ensures Entry(t.files, q) == Entry(Folded(initial, t.calls, |t.calls|), q) {
      WriteFolds(initial, s, i, q);
    }
  }

  /** What the calls before call `i` leave in its file is what the file holds while call `i` is inside. */
  lemma HeldFile(initial: Files, s: State, i: nat)
    requires InOrder(s) && FilesFolded(initial, s) && i < |s.calls| && s.calls[i].phase.HasRead?
    ensures Entry(s.files, s.calls[i].path) == Entry(Folded(initial, s.calls, i), s.calls[i].path)
    ensures forall j :: i < j < |s.calls| && s.calls[j].path == s.calls[i].path ==> s.calls[j].phase.Waiting?
  {
    forall j | i < j < |s.calls| && s.calls[j].path == s.calls[i].path ensures s.calls[j].phase.Waiting? {
      Alone(s, i, j);
    }
    FoldedSkips(initial, s.calls, i, |s.calls|, s.calls[i].path);
  }

  lemma WriteFolds(initial: Files, s: State, i: nat, q: Path)
    requires InOrder(s) && ReadsCurrent(s) && FilesFolded(initial, s) && Enabled(s, DoWrite(i))
    ensures
      var t := Do(s, DoWrite(i));
      Entry(t.files, q) == Entry(Folded(initial, t.calls, |t.calls|), q)
  {
    var t := Do(s, DoWrite(i));
    var path, op, n := s.calls[i].path, s.calls[i].op, |s.calls|;
    HeldFile(initial, s, i);
    var before := Folded(initial, s.calls, i);
    FoldedPrefix(initial, s.calls, t.calls, i);
    assert Folded(initial, t.calls, i + 1) == Perform(before, path, op);
    if q == path {
      FoldedSkips(initial, t.calls, i + 1, n, path);
      PerformLocal(s.files, before, path, op, path);
    } else {
      PerformLocal(s.files, s.files, path, op, q);
      SameElsewhere(initial, s.calls, t.calls, i, n, q);
    }
  }

  /** Whether call `i` has performed its operation is of no concern to other files. */
  lemma {:induction false} SameElsewhere(initial: Files, a: seq<Call>, b: seq<Call>, i: nat, n: nat, q: Path)
    requires i < |a| == |b| && n <= |a| && a[i].path == b[i].path && a[i].op == b[i].op && a[i].path != q
    requires forall j :: 0 <= j < |a| && j != i ==> a[j] == b[j]
    ensures Entry(Folded(initial, a, n), q) == Entry(Folded(initial, b, n), q)
  {
    if n > 0 {
      SameElsewhere(initial, a, b, i, n - 1, q);
      var f, g, call := Folded(initial, a, n - 1), Folded(initial, b, n - 1), a[n - 1];
      if call.path == q {
        PerformLocal(f, g, q, call.op, q);
      } else {
        PerformLocal(f, f, call.path, call.op, q);
        PerformLocal(g, g, call.path, call.op, q);
      }
    }
  }

  lemma LetGoKeeps(initial: Files, s: State, i: nat, done: bool)
    requires Inv(initial, s) && i < |s.calls| && !s.calls[i].phase.Waiting? && !s.calls[i].phase.Released?
    requires Performed(s.calls[i]) == done
    ensures Inv(initial, LetGo(s, i, done))
  {
    var t := LetGo(s, i, done);
    AdvancingKeepsChain(s, t, i);
    FoldedPrefix(initial, s.calls, t.calls, |s.calls|);
    LocksAfterLetGo(s, i, done);
  }

  lemma LocksAfterLetGo(s: State, i: nat, done: bool)
    requires LocksExact(s) && InOrder(s) && i < |s.calls|
    requires !s.calls[i].phase.Waiting? && !s.calls[i].phase.Released?
    ensures LocksExact(LetGo(s, i, done))
  {
    var t := LetGo(s, i, done);
    forall j | 0 <= j < |t.calls| && t.calls[j].path !in t.locks ensures t.calls[j].phase.Released? {
      if j != i && t.calls[j].path in s.locks {
        assert s.locks[t.calls[j].path] == i && SamePath(s, i, j);
        Alone(s, i, j);
      }
    }
  }

  lemma StepKeeps(initial: Files, s: State, step: Step)
    requires Inv(initial, s) && Enabled(s, step)
    ensures Inv(initial, Do(s, step))
  {
    match step
    case Enqueue(path, op) => EnqueueKeeps(initial, s, path, op);
    case Enter(i) => EnterKeeps(initial, s, i);
    case DoRead(i) => DoReadKeeps(initial, s, i);
    case DoWrite(i) => DoWriteKeeps(initial, s, i);
    case Throw(i) => LetGoKeeps(initial, s, i, false);
    case Release(i) => LetGoKeeps(initial, s, i, true);
  }

  // ---------------------------------------------------------------- whole runs

  predicate CanRun(s: State, steps: seq<Step>)
    decreases |steps|
  {
    steps == [] || (Enabled(s, steps[0]) && CanRun(Do(s, steps[0]), steps[1..]))
  }

  function Run(s: State, steps: seq<Step>): State
    requires CanRun(s, steps)
    decreases |steps|
  {
    if steps == [] then s else Run(Do(s, steps[0]), steps[1..])
  }

  lemma {:induction false} RunKeeps(initial: Files, s: State, steps: seq<Step>)
    requires Inv(initial, s) && CanRun(s, steps)
    ensures Inv(initial, Run(s, steps))
    decreases |steps|
  {
    if steps == [] {
    } else {
      StepKeeps(initial, s, steps[0]);
      RunKeeps(initial, Do(s, steps[0]), steps[1..]);
    }
  }

  predicate Inside(call: Call) {
    call.phase.Entered? || call.phase.HasRead? || call.phase.Wrote?
  }

  /**
   In every interleaving: at most one call per file is inside its critical section, each file is the fold of the
   operations performed on it in the order in which the calls were made, and a file has a map entry exactly while some
   call on it holds or waits.
   */
  lemma NoUpdateLost(initial: Files, steps: seq<Step>)
    requires CanRun(State([], map[], initial), steps)
    ensures
      var s := Run(State([], map[], initial), steps);
      && (forall i, j :: 0 <= i < j < |s.calls| && SamePath(s, i, j) ==> !(Inside(s.calls[i]) && Inside(s.calls[j])))
      && (forall path :: Entry(s.files, path) == Entry(Folded(initial, s.calls, |s.calls|), path))
      && (forall path :: path in s.locks <==>
            exists i :: 0 <= i < |s.calls| && s.calls[i].path == path && !s.calls[i].phase.Released?)
  {
    RunKeeps(initial, State([], map[], initial), steps);
  }

  /** When all calls have returned without throwing, no operation is missing from the files and no entry is left. */
  lemma AllCallsDone(initial: Files, steps: seq<Step>, s: State)
    requires CanRun(State([], map[], initial), steps) && s == Run(State([], map[], initial), steps)
    requires forall i :: 0 <= i < |s.calls| ==> s.calls[i].phase == Released(true)
    ensures s.locks == map[] && s.files == InTurn(initial, s.calls)
  {
    RunKeeps(initial, State([], map[], initial), steps);
    assert forall path :: path in s.locks ==> !s.calls[s.locks[path]].phase.Released?;
    AllPerformed(initial, s.calls, |s.calls|);
    assert s.calls[..|s.calls|] == s.calls;
    SameFiles(s.files, InTurn(initial, s.calls));
  }

  lemma SameFiles(f: Files, g: Files)
    requires forall path :: Entry(f, path) == Entry(g, path)
    ensures f == g
  {
    forall path ensures path in f <==> path in g {
      assert Entry(f, path) == Entry(g, path);
    }
    forall path | path in f ensures f[path] == g[path] {
      assert Entry(f, path) == Entry(g, path);
    }
  }

  /** The operations one after another, without any interleaving. */
  function InTurn(files: Files, calls: seq<Call>): Files {
    if calls == [] then files
    else Perform(InTurn(files, calls[..|calls| - 1]), calls[|calls| - 1].path, calls[|calls| - 1].op)
  }

  lemma {:induction false} AllPerformed(initial: Files, calls: seq<Call>, n: nat)
    requires n <= |calls| && forall i :: 0 <= i < |calls| ==> Performed(calls[i])
    ensures Folded(initial, calls, n) == InTurn(initial, calls[..n])
  {
    if n > 0 {
      AllPerformed(initial, calls, n - 1);
      assert calls[..n][..n - 1] == calls[..n - 1];
    }
  }

  /** The step that the oldest call on its file can take next. */
  function NextStep(s: State, i: nat): Step
    requires i < |s.calls|
  {
    match s.calls[i].phase
    case Waiting => Enter(i)
    case Entered => DoRead(i)
    case HasRead(_) => DoWrite(i)
    case _ => Release(i)
  }

  /** No call waits forever on a promise that nobody resolves: the oldest call on a file that is not over can move. */
  lemma NobodyIsStuck(initial: Files, s: State, i: nat)
    requires Inv(initial, s) && i < |s.calls| && !s.calls[i].phase.Released?
    requires forall k :: 0 <= k < i && SamePath(s, k, i) ==> s.calls[k].phase.Released?
    ensures Enabled(s, NextStep(s, i))
  {
    if s.calls[i].phase.Waiting? && s.calls[i].previous.Some? {
      assert Linked(s, i);
      var p := s.calls[i].previous.value;
      forall k | 0 <= k <= p && SamePath(s, k, p) ensures s.calls[k].phase.Released? {
        assert SamePath(s, k, i);
      }
      SettledWhenOver(s, p);
    }
  }

  // ---------------------------------------------------------------- what an operation is remembered by

  function Find(entries: Entries, name: string): Option<string> {
    if name in entries then Some(entries[name]) else None
  }

  /** What a performed operation leaves under its name. */
  function Left(op: Op): Option<string> {
    if op.SetSecret? && op.name != PROTO then Some(op.value) else None
  }

  lemma PerformLeaves(files: Files, path: Path, op: Op, name: string)
    ensures Find(ReadEntries(Perform(files, path, op), path), name)
         == if name == op.name then Left(op) else Find(ReadEntries(files, path), name)
  {
    var entries := ReadEntries(files, path);
    match op
    case SetSecret(_, _) =>
    case DeleteSecret(_) =>
      if op.name in entries && entries - {op.name} == map[] {
        assert name != op.name ==> name !in entries - {op.name};
      }
  }

  /**
   Setting a secret leaves a file, deleting the last one removes it, and deleting one that is not there changes
   nothing.
   */
  lemma FileRemains(files: Files, path: Path, op: Op)
    ensures path in Perform(files, path, op) <==>
      if op.SetSecret? then true
      else if op.name !in ReadEntries(files, path) then path in files
      else exists other :: other in ReadEntries(files, path) && other != op.name
    ensures op.DeleteSecret? && op.name !in ReadEntries(files, path) ==> Perform(files, path, op) == files
  {
    var entries := ReadEntries(files, path);
    if op.DeleteSecret? && op.name in entries {
      var rest := entries - {op.name};
      assert forall other :: other in rest <==> other in entries && other != op.name;
      assert rest == map[] <==> rest.Keys == {};
    }
  }

  /** What is read of a file holds no "__proto__", and is all that the file holds otherwise. */
  lemma ReadsAllBut(files: Files, path: Path, name: string)
    ensures Find(ReadEntries(files, path), name) ==
      if name == "__proto__" || path !in files then None else Find(files[path], name)
  {
  }

  /** Operations on other files and on other names do not touch an entry. */
  lemma {:induction false} FoldedKeepsEntry(initial: Files, calls: seq<Call>, m: nat, n: nat, path: Path, name: string)
    requires m <= n <= |calls|
    requires forall i :: m <= i < n ==> calls[i].path != path || calls[i].op.name != name || !Performed(calls[i])
    ensures Find(ReadEntries(Folded(initial, calls, n), path), name)
         == Find(ReadEntries(Folded(initial, calls, m), path), name)
  {
    if m < n {
      FoldedKeepsEntry(initial, calls, m, n - 1, path, name);
      var before, call := Folded(initial, calls, n - 1), calls[n - 1];
      if call.path == path {
        PerformLeaves(before, path, call.op, name);
      } else {
        PerformLocal(before, before, call.path, call.op, path);
        assert Performed(call) ==> Entry(Perform(before, call.path, call.op), path) == Entry(before, path);
      }
    }
  }

  /**
   In every interleaving the latest call performed on a name decides what is read under it. So a value that was set
   is read exactly when its name is not "__proto__".
   */
  lemma LastCallDecides(initial: Files, steps: seq<Step>, s: State, i: nat)
    requires CanRun(State([], map[], initial), steps) && s == Run(State([], map[], initial), steps)
    requires i < |s.calls| && Performed(s.calls[i])
    requires forall j :: i < j < |s.calls| && SamePath(s, j, i) && s.calls[j].op.name == s.calls[i].op.name ==>
               !Performed(s.calls[j])
    ensures
      var Call(path, op, _, _) := s.calls[i];
      var found := Find(ReadEntries(s.files, path), op.name);
      && found == Left(op)
      && (op.SetSecret? ==> (found == Some(op.value) <==> op.name != PROTO))
  {
    RunKeeps(initial, State([], map[], initial), steps);
    var Call(path, op, _, _) := s.calls[i];
    assert Entry(s.files, path) == Entry(Folded(initial, s.calls, |s.calls|), path);
    forall j | i < j < |s.calls| && s.calls[j].path == path && s.calls[j].op.name == op.name
      ensures !Performed(s.calls[j])
    {
      assert SamePath(s, j, i);
    }
    FoldedKeepsEntry(initial, s.calls, i + 1, |s.calls|, path, op.name);
    PerformLeaves(Folded(initial, s.calls, i), path, op, op.name);
  }

  // ---------------------------------------------------------------- the table that the calls share

  /**
   The module's lock map and the secrets files, changed by the stretches of code between two awaits. A promise is known
   by its number; `calls` remembers how far the calls are.
   */
  class SecretsFiles {
    var locks: map<Path, nat>
    var files: Files
    var promises: nat
    ghost var calls: seq<Call>

    ghost predicate Valid()
      reads this
    {
      promises == |calls|
    }

    ghost function Now(): State
      reads this
    {
      State(calls, locks, files)
    }

    constructor (initial: Files)
      ensures Valid() && Now() == State([], map[], initial)
    {
      locks, files, promises, calls := map[], initial, 0, [];
    }

    /** Up to `await previous`. */
    method EnqueueCall(path: Path, ghost op: Op) returns (queued: nat, previous: Option<nat>)
      requires Valid()
      modifies this
      ensures Valid() && Now() == Do(old(Now()), Enqueue(path, op))
      ensures queued == old(|calls|) && previous == calls[queued].previous
    {
      previous := None;
      if path in locks {
        previous := Some(locks[path]);
      }
      queued := promises;
      promises := promises + 1;
      locks := locks[path := queued];
      calls := calls + [Call(path, op, previous, Waiting)];
    }

    /** The awaited promise is resolved. */
    ghost method EnterCall(i: nat)
      requires Valid() && Enabled(Now(), Enter(i))
      modifies this`calls
      ensures Valid() && Now() == Do(old(Now()), Enter(i))
    {
      calls := calls[i := calls[i].(phase := Entered)];
    }

    method ReadFile(path: Path, ghost i: nat) returns (entries: Entries)
      requires Valid() && Enabled(Now(), DoRead(i)) && calls[i].path == path
      modifies this`calls
      ensures Valid() && entries == ReadEntries(files, path)
      ensures Now() == Do(old(Now()), DoRead(i))
    {
      entries := map[];
      if path in files {
        var parsed := files[path];
        var rest := parsed.Keys;
        while rest != {}
          invariant rest <= parsed.Keys
          invariant entries == map key | key in parsed && key !in rest && key != PROTO :: parsed[key]
        {
          var key :| key in rest;
          rest := rest - {key};
          if key != PROTO {
            entries := entries[key := parsed[key]];
          }
        }
      }
      calls := calls[i := calls[i].(phase := HasRead(entries))];
    }

    /** `set` stores the entry and rewrites the file; `delete` of the last entry removes the file. */
    method WriteFile(path: Path, op: Op, entries: Entries, ghost i: nat) returns (existed: bool)
      requires Valid() && Enabled(Now(), DoWrite(i)) && calls[i] == Call(path, op, calls[i].previous, HasRead(entries))
      modifies this`files, this`calls
      ensures Valid() && existed == (op.name in entries)
      ensures Now() == Do(old(Now()), DoWrite(i))
    {
      existed := op.name in entries;
      if op.SetSecret? {
        files := files[path := if op.name == PROTO then entries else entries[op.name := op.value]];
      } else if existed {
        var updated := entries - {op.name};
        if updated == map[] {
          files := files - {path};
        } else {
          files := files[path := updated];
        }
      }
      calls := calls[i := calls[i].(phase := Wrote)];
    }

    /** The `finally` block, behind an operation that was performed or has thrown. */
    method LeaveCall(path: Path, queued: nat, ghost done: bool)
      requires Valid() && Enabled(Now(), if done then Release(queued) else Throw(queued)) && calls[queued].path == path
      modifies this`locks, this`calls
      ensures Valid() && Now() == Do(old(Now()), if done then Release(queued) else Throw(queued))
    {
      if path in locks && locks[path] == queued {
        locks := locks - {path};
      }
      calls := calls[queued := calls[queued].(phase := Released(done))];
    }

    /** A whole call on a file that no other call holds or waits for: the operation, and no trace in the lock map. */
    method Mutate(path: Path, op: Op) returns (existed: bool)
      requires Valid() && path !in locks
      modifies this
      ensures Valid() && files == Perform(old(files), path, op) && locks == old(locks)
      ensures existed == (op.name in ReadEntries(old(files), path))
    {
      var queued, previous := EnqueueCall(path, op);
      EnterCall(queued);
      var entries := ReadFile(path, queued);
      existed := WriteFile(path, op, entries, queued);
      LeaveCall(path, queued, true);
      assert locks == old(locks);
    }
  }
}
