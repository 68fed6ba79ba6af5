/**
 The approval request store of the local server (apps/local-mcp/src/approvals.ts): request files, the list of granted
 approvals in approvals.json, and the queue of promises behind which approve and deny calls run. Calls are interleaved
 at every await, and requests are created outside the queue.
 */
module ApprovalStore {
  import opened Wrappers
  import opened Approvals

  type Id = string

  datatype Status = Pending | Approved | Denied

  datatype Kind = Approve | Deny

  datatype Request = Request(
    approval: Approval,
    reason: string,
    status: Status,
    createdAt: nat,
    resolvedAt: Option<nat>)

  datatype Grant = Grant(requestId: Id, approval: Approval, grantedAt: nat)

  datatype Outcome = Resolved | AlreadyResolved(status: Status) | NotFound

  /** How far a call is, with what it has read so far. */
  datatype Phase =
    | Waiting
    | Entered
    | GotRequest(request: Request, at: nat)
    | GotGrants(request: Request, at: nat, grants: seq<Grant>)
    | WroteGrants(request: Request, at: nat)
    | WroteRequest
    | Over(outcome: Outcome)

  datatype Call = Call(id: Id, kind: Kind, phase: Phase)

  /** Each call awaits the promise of the call made before it, the last one is `updateQueue`. */
  datatype State = State(requests: map<Id, Request>, grants: seq<Grant>, calls: seq<Call>)

  datatype Step =
    | Create(id: Id, approval: Approval, reason: string, at: nat)
    | Enqueue(id: Id, kind: Kind)
    | Enter(i: nat)
    | ReadRequest(i: nat, at: nat)
    | ReadGrants(i: nat)
    | WriteGrants(i: nat)
    | WriteRequest(i: nat)
    | Release(i: nat)

  predicate Enabled(s: State, step: Step) {
    match step
    case Create(id, _, _, _) => id !in s.requests
    case Enqueue(_, _) => true
    case Enter(i) => i < |s.calls| && s.calls[i].phase.Waiting? && (i == 0 || s.calls[i - 1].phase.Over?)
    case ReadRequest(i, _) => i < |s.calls| && s.calls[i].phase.Entered?
    case ReadGrants(i) => i < |s.calls| && s.calls[i].phase.GotRequest? && s.calls[i].kind.Approve?
    case WriteGrants(i) => i < |s.calls| && s.calls[i].phase.GotGrants?
    case WriteRequest(i) =>
      i < |s.calls| && (s.calls[i].phase.WroteGrants? || (s.calls[i].phase.GotRequest? && s.calls[i].kind.Deny?))
    case Release(i) => i < |s.calls| && s.calls[i].phase.WroteRequest?
  }

  function Verdict(kind: Kind): Status {
    if kind.Approve? then Approved else Denied
  }

  function SetPhase(s: State, i: nat, phase: Phase): State
    requires i < |s.calls|
  {
    s.(calls := s.calls[i := s.calls[i].(phase := phase)])
  }

  function Do(s: State, step: Step): State
    requires Enabled(s, step)
  {
    match step
    case Create(id, approval, reason, at) =>
      s.(requests := s.requests[id := Request(approval, reason, Pending, at, None)])
    case Enqueue(id, kind) => s.(calls := s.calls + [Call(id, kind, Waiting)])
    case Enter(i) => SetPhase(s, i, Entered)
    case ReadRequest(i, at) => SetPhase(s, i, AfterReading(s.requests, s.calls[i].id, at))
    case ReadGrants(i) =>
      var phase := s.calls[i].phase;
      SetPhase(s, i, GotGrants(phase.request, phase.at, s.grants))
    case WriteGrants(i) =>
      var Call(id, _, phase) := s.calls[i];
      SetPhase(s, i, WroteGrants(phase.request, phase.at))
        .(grants := phase.grants + [Grant(id, phase.request.approval, phase.at)])
    case WriteRequest(i) =>
      var Call(id, kind, phase) := s.calls[i];
      SetPhase(s, i, WroteRequest)
        .(requests := s.requests[id := phase.request.(status := Verdict(kind), resolvedAt := Some(phase.at))])
    case Release(i) => SetPhase(s, i, Over(Resolved))
  }

  /** A missing or resolved request ends the call with an error, which also releases the queue. */
  function AfterReading(requests: map<Id, Request>, id: Id, at: nat): Phase {
    if id !in requests then Over(NotFound)
    else if !requests[id].status.Pending? then Over(AlreadyResolved(requests[id].status))
    else GotRequest(requests[id], at)
  }

  // ---------------------------------------------------------------- the invariant

  ghost predicate InOrder(s: State) {
    forall j, i :: 0 <= j < i < |s.calls| && !s.calls[i].phase.Waiting? ==> s.calls[j].phase.Over?
  }

  predicate Inside(call: Call) {
    !call.phase.Waiting? && !call.phase.Over?
  }

  /** The call resolved its request. */
  predicate Settled(call: Call) {
    call.phase.WroteRequest? || call.phase == Over(Resolved)
  }

  /** What a call has read is still so, and what it has resolved stays resolved. */
  ghost predicate CallCurrent(s: State, call: Call) {
    && (call.phase.GotRequest? || call.phase.GotGrants? || call.phase.WroteGrants? ==>
          call.id in s.requests && s.requests[call.id] == call.phase.request && call.phase.request.status.Pending?)
    && (call.phase.GotGrants? ==> call.phase.grants == s.grants && call.kind.Approve?)
    && (call.phase.WroteGrants? ==> call.kind.Approve?)
    && (Settled(call) ==> call.id in s.requests && s.requests[call.id].status == Verdict(call.kind))
  }

  ghost predicate CallsCurrent(s: State) {
    forall i :: 0 <= i < |s.calls| ==> CallCurrent(s, s.calls[i])
  }

  ghost predicate ResolvedOnce(s: State) {
    forall i, j :: 0 <= i < j < |s.calls| && s.calls[i].id == s.calls[j].id ==>
      !(Settled(s.calls[i]) && Settled(s.calls[j]))
  }

  predicate HasGrant(grants: seq<Grant>, id: Id) {
    exists i :: 0 <= i < |grants| && grants[i].requestId == id
  }

  /** An approver of the request is between its two writes. */
  predicate BetweenWrites(calls: seq<Call>, id: Id) {
    exists i :: 0 <= i < |calls| && calls[i].id == id && calls[i].phase.WroteGrants?
  }

  ghost predicate GrantsDistinct(grants: seq<Grant>) {
    forall i, j :: 0 <= i < j < |grants| ==> grants[i].requestId != grants[j].requestId
  }

  ghost predicate GrantsFaithful(s: State) {
    forall i :: 0 <= i < |s.grants| ==>
      && s.grants[i].requestId in s.requests
      && s.grants[i].approval == s.requests[s.grants[i].requestId].approval
  }

  ghost predicate GrantsExact(s: State) {
    forall id :: id in s.requests ==>
      (HasGrant(s.grants, id) <==> (s.requests[id].status.Approved? || BetweenWrites(s.calls, id)))
  }

  ghost predicate Inv(s: State) {
    && InOrder(s) && CallsCurrent(s) && ResolvedOnce(s)
    && GrantsDistinct(s.grants) && GrantsFaithful(s) && GrantsExact(s)
  }

  // ---------------------------------------------------------------- each step keeps it

  lemma Alone(s: State, i: nat, j: nat)
    requires InOrder(s) && i < |s.calls| && j < |s.calls| && i != j && Inside(s.calls[i])
    ensures !Inside(s.calls[j])
  {
  }

  lemma CreateKeeps(s: State, id: Id, approval: Approval, reason: string, at: nat)
    requires Inv(s) && id !in s.requests
    ensures Inv(Do(s, Create(id, approval, reason, at)))
  {
    forall i | 0 <= i < |s.calls| && s.calls[i].phase.WroteGrants? ensures s.calls[i].id in s.requests {
      assert CallCurrent(s, s.calls[i]);
    }
  }

  lemma EnqueueKeeps(s: State, id: Id, kind: Kind)
    requires Inv(s)
    ensures Inv(Do(s, Enqueue(id, kind)))
  {
    var t := Do(s, Enqueue(id, kind));
    forall x | x in s.requests ensures BetweenWrites(t.calls, x) <==> BetweenWrites(s.calls, x) {
      SameBetween(s.calls, t.calls, x);
    }
  }

  lemma SameBetween(a: seq<Call>, b: seq<Call>, id: Id)
    requires |a| <= |b|
    requires forall i :: 0 <= i < |a| ==> b[i].id == a[i].id && b[i].phase.WroteGrants? == a[i].phase.WroteGrants?
    requires forall i :: |a| <= i < |b| ==> !b[i].phase.WroteGrants?
    ensures BetweenWrites(a, id) <==> BetweenWrites(b, id)
  {
    if BetweenWrites(a, id) {
      var i :| 0 <= i < |a| && a[i].id == id && a[i].phase.WroteGrants?;
      assert b[i].id == id;
    }
  }

  /** A step of one call that writes no file. */
  lemma QuietStepKeeps(s: State, i: nat, phase: Phase)
    requires Inv(s) && i < |s.calls| && !phase.Waiting? && !phase.WroteGrants? && !s.calls[i].phase.WroteGrants?
    requires forall j :: 0 <= j < i ==> s.calls[j].phase.Over?
    requires Settled(s.calls[i].(phase := phase)) == Settled(s.calls[i]) && !s.calls[i].phase.Over?
    requires CallCurrent(s, s.calls[i].(phase := phase))
    ensures Inv(SetPhase(s, i, phase))
  {
    var t := SetPhase(s, i, phase);
    forall j | 0 <= j < |t.calls| ensures CallCurrent(t, t.calls[j]) {
      assert j != i ==> CallCurrent(s, s.calls[j]);
    }
    forall x | x in s.requests ensures BetweenWrites(t.calls, x) <==> BetweenWrites(s.calls, x) {
      SameBetween(s.calls, t.calls, x);
    }
  }

  /** While one call is inside, no other call is between its writes. */
  lemma BetweenIsMe(s: State, i: nat, id: Id)
    requires InOrder(s) && i < |s.calls| && Inside(s.calls[i])
    ensures BetweenWrites(s.calls, id) <==> s.calls[i].id == id && s.calls[i].phase.WroteGrants?
  {
    forall j | 0 <= j < |s.calls| && j != i ensures !Inside(s.calls[j]) {
      Alone(s, i, j);
    }
  }

  lemma WriteGrantsKeeps(s: State, i: nat)
    requires Inv(s) && Enabled(s, WriteGrants(i))
    ensures Inv(Do(s, WriteGrants(i)))
  {
    var t := Do(s, WriteGrants(i));
    var me := s.calls[i].id;
    assert CallCurrent(s, s.calls[i]);
    BetweenIsMe(s, i, me);
    assert !HasGrant(s.grants, me);
    forall x | x in t.requests
      ensures HasGrant(t.grants, x) <==> (t.requests[x].status.Approved? || BetweenWrites(t.calls, x))
    {
      BetweenIsMe(s, i, x);
      BetweenIsMe(t, i, x);
      GrantAdded(s.grants, t.grants[|s.grants|], x);
    }
    OthersCurrent(s, t, i);
  }

  lemma GrantAdded(grants: seq<Grant>, g: Grant, id: Id)
    ensures HasGrant(grants + [g], id) <==> HasGrant(grants, id) || g.requestId == id
  {
    var all := grants + [g];
    if HasGrant(grants, id) {
      var k :| 0 <= k < |grants| && grants[k].requestId == id;
      assert all[k] == grants[k];
    }
    if g.requestId == id { assert all[|grants|].requestId == id; }
  }

  /** Calls outside the critical section have read nothing that could change. */
  lemma OthersCurrent(s: State, t: State, i: nat)
    requires InOrder(s) && CallsCurrent(s) && i < |s.calls| == |t.calls| && Inside(s.calls[i])
    requires forall j :: 0 <= j < |s.calls| && j != i ==> t.calls[j] == s.calls[j]
    requires CallCurrent(t, t.calls[i]) && s.requests.Keys <= t.requests.Keys
    requires forall id :: id in s.requests && !s.requests[id].status.Pending? ==> t.requests[id] == s.requests[id]
    ensures CallsCurrent(t)
  {
    forall j | 0 <= j < |t.calls| ensures CallCurrent(t, t.calls[j]) {
      if j != i {
        Alone(s, i, j);
        assert CallCurrent(s, s.calls[j]);
      }
    }
  }

  lemma WriteRequestKeeps(s: State, i: nat)
    requires Inv(s) && Enabled(s, WriteRequest(i))
    ensures Inv(Do(s, WriteRequest(i)))
  {
    var t := Do(s, WriteRequest(i));
    assert CallCurrent(s, s.calls[i]);
    OthersCurrent(s, t, i);
    forall x | x in t.requests
      ensures HasGrant(t.grants, x) <==> (t.requests[x].status.Approved? || BetweenWrites(t.calls, x))
    {
      BetweenIsMe(s, i, x);
      BetweenIsMe(t, i, x);
    }
    forall j | 0 <= j < |s.calls| && j != i && s.calls[j].id == s.calls[i].id ensures !Settled(s.calls[j]) {
      assert CallCurrent(s, s.calls[j]);
    }
  }

  lemma StepKeeps(s: State, step: Step)
    requires Inv(s) && Enabled(s, step)
    ensures Inv(Do(s, step))
  {
    match step
    case Create(id, approval, reason, at) => CreateKeeps(s, id, approval, reason, at);
    case Enqueue(id, kind) => EnqueueKeeps(s, id, kind);
    case Enter(i) => QuietStepKeeps(s, i, Entered);
    case ReadRequest(i, at) => QuietStepKeeps(s, i, AfterReading(s.requests, s.calls[i].id, at));
    case ReadGrants(i) => QuietStepKeeps(s, i, Do(s, step).calls[i].phase);
    case WriteGrants(i) => WriteGrantsKeeps(s, i);
    case WriteRequest(i) => WriteRequestKeeps(s, i);
    case Release(i) => QuietStepKeeps(s, i, Over(Resolved));
  }

  // ---------------------------------------------------------------- whole runs

  predicate CanRun(s: State, steps: seq<Step>)
    decreases |steps|
  {
    steps == [] || (Enabled(s, steps[0]) && CanRun(Do(s, steps[0]), steps[1..]))
  }

  function Run(s: State, steps: seq<Step>): State
    requires CanRun(s, steps)
    decreases |steps|
  {
    if steps == [] then s else Run(Do(s, steps[0]), steps[1..])
  }

  /** The files as an earlier server left them, before any call. */
  ghost predicate AtStart(s: State) {
    s.calls == [] && GrantsDistinct(s.grants) && GrantsFaithful(s) && GrantsExact(s)
  }

  lemma {:induction false} RunKeeps(s: State, steps: seq<Step>)
    requires Inv(s) && CanRun(s, steps)
    ensures Inv(Run(s, steps))
    decreases |steps|
  {
    if steps == [] {
    } else {
      StepKeeps(s, steps[0]);
      RunKeeps(Do(s, steps[0]), steps[1..]);
    }
  }

  /** The number of records granted for a request. */
  function GrantCount(grants: seq<Grant>, id: Id): nat {
    if grants == [] then 0
    else GrantCount(grants[..|grants| - 1], id) + if grants[|grants| - 1].requestId == id then 1 else 0
  }

  lemma {:induction false} DistinctCount(grants: seq<Grant>, id: Id)
    requires GrantsDistinct(grants)
    ensures GrantCount(grants, id) == if HasGrant(grants, id) then 1 else 0
  {
    if grants == [] {
    } else {
      var front, last := grants[..|grants| - 1], grants[|grants| - 1];
      DistinctCount(front, id);
      GrantAdded(front, last, id);
      assert grants == front + [last];
    }
  }

  /**
   In every interleaving: a request has one record in approvals.json when it is approved or its approver is between its
   two writes, and none otherwise; and at most one call resolves it, in the way its status says.
   */
  lemma GrantsMatchDecisions(start: State, steps: seq<Step>, s: State, id: Id)
    requires AtStart(start) && CanRun(start, steps) && s == Run(start, steps) && id in s.requests
    ensures
      GrantCount(s.grants, id) == if s.requests[id].status.Approved? || BetweenWrites(s.calls, id) then 1 else 0
    ensures forall i :: 0 <= i < |s.calls| && s.calls[i].id == id && Settled(s.calls[i]) ==>
      && s.requests[id].status == Verdict(s.calls[i].kind)
      && forall j :: 0 <= j < |s.calls| && s.calls[j].id == id && Settled(s.calls[j]) ==> j == i
  {
    RunKeeps(start, steps);
    DistinctCount(s.grants, id);
    forall i | 0 <= i < |s.calls| && s.calls[i].id == id && Settled(s.calls[i])
      ensures s.requests[id].status == Verdict(s.calls[i].kind)
    {
      assert CallCurrent(s, s.calls[i]);
    }
  }

  /** When no call is inside, approvals.json holds a record for the approved requests and for no other. */
  lemma QuietStateIsExact(start: State, steps: seq<Step>, s: State, id: Id)
    requires AtStart(start) && CanRun(start, steps) && s == Run(start, steps) && id in s.requests
    requires forall i :: 0 <= i < |s.calls| ==> !Inside(s.calls[i])
    ensures GrantCount(s.grants, id) == if s.requests[id].status.Approved? then 1 else 0
  {
    GrantsMatchDecisions(start, steps, s, id);
    assert !BetweenWrites(s.calls, id);
  }

  /** `listGrantedApprovals`. */
  function Granted(grants: seq<Grant>): (approvals: seq<Approval>)
    ensures |approvals| == |grants| && forall i :: 0 <= i < |grants| ==> approvals[i] == grants[i].approval
  {
    if grants == [] then [] else [grants[0].approval] + Granted(grants[1..])
  }

  // ---------------------------------------------------------------- what was asked for

  datatype Asked = Asked(approval: Approval, reason: string, createdAt: nat)

  function AskedIn(request: Request): Asked {
    Asked(request.approval, request.reason, request.createdAt)
  }

  /** The request was there at the start, or a step of the run makes it, with this approval, reason and time. */
  ghost predicate AskedFor(start: State, steps: seq<Step>, id: Id, asked: Asked) {
    || (id in start.requests && AskedIn(start.requests[id]) == asked)
    || exists k :: AskedBy(steps, k, id, asked)
  }

  ghost predicate AskedBy(steps: seq<Step>, k: int, id: Id, asked: Asked) {
    0 <= k < |steps| && steps[k] == Create(id, asked.approval, asked.reason, asked.createdAt)
  }

  /** No step changes what a request asks for, and only a creation makes one. */
  lemma StepKeepsAsked(s: State, step: Step)
    requires Inv(s) && Enabled(s, step)
    ensures forall id :: id in s.requests ==>
      id in Do(s, step).requests && AskedIn(Do(s, step).requests[id]) == AskedIn(s.requests[id])
    ensures forall id :: id in Do(s, step).requests && id !in s.requests ==>
      step == Create(id, Do(s, step).requests[id].approval, Do(s, step).requests[id].reason,
                     Do(s, step).requests[id].createdAt)
    ensures step.Create? ==>
      step.id in Do(s, step).requests && AskedIn(Do(s, step).requests[step.id]) ==
        Asked(step.approval, step.reason, step.at)
  {
    if step.WriteRequest? { assert CallCurrent(s, s.calls[step.i]); }
  }

  /**
   At every moment of every run a request holds the approval, the reason and the time with which it was made, and the
   requests are those of the start and those made since.
   */
  lemma {:induction false} RequestsAsMade(start: State, steps: seq<Step>, id: Id, asked: Asked)
    requires Inv(start) && CanRun(start, steps)
    ensures AskedFor(start, steps, id, asked) <==>
      id in Run(start, steps).requests && AskedIn(Run(start, steps).requests[id]) == asked
    decreases |steps|
  {
    if steps == [] {
    } else {
      var next, rest := Do(start, steps[0]), steps[1..];
      StepKeepsAsked(start, steps[0]);
      StepKeeps(start, steps[0]);
      RequestsAsMade(next, rest, id, asked);
      if k :| AskedBy(steps, k, id, asked) {
        if k > 0 { assert AskedBy(rest, k - 1, id, asked); }
      }
      if k :| AskedBy(rest, k, id, asked) { assert AskedBy(steps, k + 1, id, asked); }
      if steps[0] == Create(id, asked.approval, asked.reason, asked.createdAt) { assert AskedBy(steps, 0, id, asked); }
    }
  }

  /** What was approved is granted: the requirement with which the request was made is met by the granted approvals. */
  lemma ApprovedIsGranted(start: State, steps: seq<Step>, s: State, id: Id, asked: Asked)
    requires AtStart(start) && CanRun(start, steps) && s == Run(start, steps) && AskedFor(start, steps, id, asked)
    ensures id in s.requests && (s.requests[id].status.Approved? ==> HasApproval(Granted(s.grants), asked.approval))
  {
    RunKeeps(start, steps);
    RequestsAsMade(start, steps, id, asked);
    if s.requests[id].status.Approved? {
      var i :| 0 <= i < |s.grants| && s.grants[i].requestId == id;
      MatchesItself(s.grants[i].approval);
      assert Granted(s.grants)[i] == asked.approval;
    }
  }

  /** Nothing is granted without a decision: a met requirement matches one asked for and approved, or being approved. */
  lemma GrantedWasApproved(start: State, steps: seq<Step>, s: State, requirement: Approval)
    requires AtStart(start) && CanRun(start, steps) && s == Run(start, steps)
    requires HasApproval(Granted(s.grants), requirement)
    ensures
      exists id, asked :: (
        && AskedFor(start, steps, id, asked) && MatchesApproval(asked.approval, requirement)
        && id in s.requests && (s.requests[id].status.Approved? || BetweenWrites(s.calls, id)))
  {
    RunKeeps(start, steps);
    var i :| 0 <= i < |s.grants| && MatchesApproval(Granted(s.grants)[i], requirement);
    var id := s.grants[i].requestId;
    assert HasGrant(s.grants, id);
    RequestsAsMade(start, steps, id, AskedIn(s.requests[id]));
  }

  // ---------------------------------------------------------------- who decided

  ghost predicate DecidedBy(s: State, id: Id, i: int) {
    0 <= i < |s.calls| && s.calls[i].id == id && Settled(s.calls[i])
  }

  /** A request is undecided exactly when it was so at the start, or made since, and no call has resolved it. */
  ghost predicate Undecided(start: State, s: State, id: Id) {
    && (id in start.requests ==> start.requests[id].status.Pending?)
    && forall i :: !DecidedBy(s, id, i)
  }

  ghost predicate StatusExplained(start: State, s: State) {
    && start.requests.Keys <= s.requests.Keys
    && forall id :: id in s.requests ==> (s.requests[id].status.Pending? <==> Undecided(start, s, id))
  }

  lemma SameDecisions(start: State, s: State, t: State)
    requires |s.calls| <= |t.calls|
    requires forall i :: 0 <= i < |s.calls| ==>
      t.calls[i].id == s.calls[i].id && Settled(t.calls[i]) == Settled(s.calls[i])
    requires forall i :: |s.calls| <= i < |t.calls| ==> !Settled(t.calls[i])
    ensures forall id :: Undecided(start, s, id) <==> Undecided(start, t, id)
  {
    forall id, i ensures DecidedBy(s, id, i) <==> DecidedBy(t, id, i) {}
  }

  lemma StepKeepsExplained(start: State, s: State, step: Step)
    requires Inv(s) && StatusExplained(start, s) && Enabled(s, step)
    ensures StatusExplained(start, Do(s, step))
  {
    var t := Do(s, step);
    if step.WriteRequest? {
      assert CallCurrent(s, s.calls[step.i]);
      assert DecidedBy(t, s.calls[step.i].id, step.i);
      forall id, i | id != s.calls[step.i].id ensures DecidedBy(s, id, i) <==> DecidedBy(t, id, i) {}
    } else {
      SameDecisions(start, s, t);
      if step.Create? { NewIsUndecided(start, s, step.id); }
    }
  }

  /** No call has resolved a request that there is not. */
  lemma NewIsUndecided(start: State, s: State, id: Id)
    requires Inv(s) && start.requests.Keys <= s.requests.Keys && id !in s.requests
    ensures Undecided(start, s, id)
  {
    forall i ensures !DecidedBy(s, id, i) {
      if 0 <= i < |s.calls| { assert CallCurrent(s, s.calls[i]); }
    }
  }

  lemma {:induction false} RunExplains(start: State, s: State, steps: seq<Step>)
    requires Inv(s) && StatusExplained(start, s) && CanRun(s, steps)
    ensures StatusExplained(start, Run(s, steps))
    decreases |steps|
  {
    if steps == [] {
    } else {
      StepKeeps(s, steps[0]);
      StepKeepsExplained(start, s, steps[0]);
      RunExplains(start, Do(s, steps[0]), steps[1..]);
    }
  }

  /** In every run a request made since the start is pending until a call resolves it, and then as that call says. */
  lemma PendingUntilDecided(start: State, steps: seq<Step>, s: State, id: Id)
    requires AtStart(start) && CanRun(start, steps) && s == Run(start, steps) && id in s.requests
    ensures s.requests[id].status.Pending? <==>
      (id in start.requests ==> start.requests[id].status.Pending?) && forall i :: !DecidedBy(s, id, i)
    ensures forall i :: DecidedBy(s, id, i) ==> s.requests[id].status == Verdict(s.calls[i].kind)
  {
    RunKeeps(start, steps);
    RunExplains(start, start, steps);
    forall i | DecidedBy(s, id, i) ensures s.requests[id].status == Verdict(s.calls[i].kind) {
      assert CallCurrent(s, s.calls[i]);
    }
  }

  /** The step that the oldest call that is not over can take next. */
  function NextStep(s: State, i: nat): Step
    requires i < |s.calls|
  {
    match s.calls[i].phase
    case Waiting => Enter(i)
    case Entered => ReadRequest(i, 0)
    case GotRequest(_, _) => if s.calls[i].kind.Approve? then ReadGrants(i) else WriteRequest(i)
    case GotGrants(_, _, _) => WriteGrants(i)
    case WroteGrants(_, _) => WriteRequest(i)
    case _ => Release(i)
  }

  lemma NobodyIsStuck(s: State, i: nat)
    requires i < |s.calls| && !s.calls[i].phase.Over? && forall j :: 0 <= j < i ==> s.calls[j].phase.Over?
    ensures Enabled(s, NextStep(s, i))
  {
  }

  // ---------------------------------------------------------------- the store

  /**
   The files and the queue, changed by the stretches of code between two awaits. Promises are numbered as they are
   made, and `updateQueue` is the number of the next one; `calls` remembers how far the calls are.
   */
  class LocalApprovalStore {
    var requests: map<Id, Request>
    var grants: seq<Grant>
    var updateQueue: nat
    ghost var calls: seq<Call>

    ghost predicate Valid()
      reads this
    {
      updateQueue == |calls|
    }

    ghost function Now(): State
      reads this
    {
      State(requests, grants, calls)
    }

    constructor (requests: map<Id, Request>, grants: seq<Grant>)
      ensures Valid() && Now() == State(requests, grants, [])
    {
      this.requests, this.grants, updateQueue, calls := requests, grants, 0, [];
    }

    method CreateApprovalRequest(id: Id, approval: Approval, reason: string, at: nat)
      requires Valid() && id !in requests
      modifies this`requests
      ensures Valid() && Now() == Do(old(Now()), Create(id, approval, reason, at))
    {
      requests := requests[id := Request(approval, reason, Pending, at, None)];
    }

    /** `withStoreLock` up to `await previous`. */
    method EnqueueCall(ghost id: Id, ghost kind: Kind) returns (queued: nat)
      requires Valid()
      modifies this`updateQueue, this`calls
      ensures Valid() && queued == old(|calls|) && Now() == Do(old(Now()), Enqueue(id, kind))
    {
      queued := updateQueue;
      updateQueue := updateQueue + 1;
      calls := calls + [Call(id, kind, Waiting)];
    }

    /** The promise of the call before is resolved. */
    ghost method EnterCall(i: nat)
      requires Valid() && Enabled(Now(), Enter(i))
      modifies this`calls
      ensures Valid() && Now() == Do(old(Now()), Enter(i))
    {
      calls := calls[i := calls[i].(phase := Entered)];
    }

    /** Read the request file and check the status; an error ends the call. */
    method ReadRequestFile(id: Id, at: nat, ghost i: nat) returns (read: Result<Request, Outcome>)
      requires Valid() && Enabled(Now(), ReadRequest(i, at)) && calls[i].id == id
      modifies this`calls
      ensures Valid() && Now() == Do(old(Now()), ReadRequest(i, at))
      ensures calls[i].phase == if read.Ok? then GotRequest(read.value, at) else Over(read.error)
    {
      if id !in requests {
        read := Err(NotFound);
      } else if requests[id].status != Pending {
        read := Err(AlreadyResolved(requests[id].status));
      } else {
        read := Ok(requests[id]);
      }
      calls := calls[i := calls[i].(phase := AfterReading(requests, id, at))];
    }

    method ReadGrantsFile(ghost i: nat) returns (granted: seq<Grant>)
      requires Valid() && Enabled(Now(), ReadGrants(i))
      modifies this`calls
      ensures Valid() && granted == grants && Now() == Do(old(Now()), ReadGrants(i))
    {
      granted := grants;
      calls := calls[i := calls[i].(phase := GotGrants(calls[i].phase.request, calls[i].phase.at, granted))];
    }

    /** The record is pushed onto the list as it was read, and the list written. */
    method WriteGrantsFile(id: Id, request: Request, at: nat, granted: seq<Grant>, ghost i: nat)
      requires Valid() && Enabled(Now(), WriteGrants(i))
      requires calls[i].id == id && calls[i].phase == GotGrants(request, at, granted)
      modifies this`grants, this`calls
      ensures Valid() && Now() == Do(old(Now()), WriteGrants(i))
    {
      grants := granted + [Grant(id, request.approval, at)];
      calls := calls[i := calls[i].(phase := WroteGrants(request, at))];
    }

    method WriteRequestFile(id: Id, kind: Kind, request: Request, at: nat, ghost i: nat)
      requires Valid() && Enabled(Now(), WriteRequest(i)) && calls[i].id == id && calls[i].kind == kind
      requires calls[i].phase.request == request && calls[i].phase.at == at
      modifies this`requests, this`calls
      ensures Valid() && Now() == Do(old(Now()), WriteRequest(i))
    {
      requests := requests[id := request.(status := Verdict(kind), resolvedAt := Some(at))];
      calls := calls[i := calls[i].(phase := WroteRequest)];
    }

    /** The `finally` block behind an operation that was performed. */
    ghost method ReleaseCall(i: nat)
      requires Valid() && Enabled(Now(), Release(i))
      modifies this`calls
      ensures Valid() && Now() == Do(old(Now()), Release(i))
    {
      calls := calls[i := calls[i].(phase := Over(Resolved))];
    }

    /** Nobody is inside or waits. */
    ghost predicate Idle()
      reads this
    {
      forall j :: 0 <= j < |calls| ==> calls[j].phase.Over?
    }

    method RecordGrant(id: Id, request: Request, at: nat, ghost i: nat)
      requires Valid() && Enabled(Now(), ReadGrants(i))
      requires calls[i].id == id && calls[i].phase == GotRequest(request, at)
      modifies this`grants, this`calls
      ensures Valid() && grants == old(grants) + [Grant(id, request.approval, at)]
      ensures calls == old(calls)[i := Call(id, Approve, WroteGrants(request, at))]
    {
      var granted := ReadGrantsFile(i);
      WriteGrantsFile(id, request, at, granted, i);
    }

    /** A whole approval while no other call is open. */
    method ApproveApprovalRequest(id: Id, at: nat) returns (resolved: Result<Request, Outcome>)
      requires Valid() && Idle()
      modifies this
      ensures Valid() && Idle()
      ensures resolved.Err? <==> id !in old(requests) || old(requests)[id].status != Pending
      ensures resolved.Err? ==> requests == old(requests) && grants == old(grants)
      ensures resolved.Err? ==>
        resolved.error == if id in old(requests) then AlreadyResolved(old(requests)[id].status) else NotFound
      ensures resolved.Ok? ==>
        && resolved.value == old(requests)[id].(status := Approved, resolvedAt := Some(at))
        && requests == old(requests)[id := resolved.value]
        && grants == old(grants) + [Grant(id, old(requests)[id].approval, at)]
    {
      var queued := EnqueueCall(id, Approve);
      EnterCall(queued);
      var read := ReadRequestFile(id, at, queued);
      if read.Err? {
        return Err(read.error);
      }
      var request := read.value;
      RecordGrant(id, request, at, queued);
      WriteRequestFile(id, Approve, request, at, queued);
      ReleaseCall(queued);
      resolved := Ok(requests[id]);
    }

    /** A whole denial while no other call is open. */
    method DenyApprovalRequest(id: Id, at: nat) returns (resolved: Result<Request, Outcome>)
      requires Valid() && Idle()
      modifies this
      ensures Valid() && Idle()
      ensures resolved.Err? <==> id !in old(requests) || old(requests)[id].status != Pending
      ensures resolved.Err? ==> requests == old(requests) && grants == old(grants)
      ensures resolved.Err? ==>
        resolved.error == if id in old(requests) then AlreadyResolved(old(requests)[id].status) else NotFound
      ensures resolved.Ok? ==>
        && resolved.value == old(requests)[id].(status := Denied, resolvedAt := Some(at))
        && requests == old(requests)[id := resolved.value]
        && grants == old(grants)
    {
      var queued := EnqueueCall(id, Deny);
      EnterCall(queued);
      var read := ReadRequestFile(id, at, queued);
      if read.Err? {
        return Err(read.error);
      }
      var request := read.value;
      WriteRequestFile(id, Deny, request, at, queued);
      ReleaseCall(queued);
      resolved := Ok(requests[id]);
    }
  }
}
