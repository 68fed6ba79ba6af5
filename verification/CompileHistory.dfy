/**
 What the record of a compile job tells about its past: which call ended it and how, which worker claimed it last, and
 when. Also which calls are accepted, and as what the others are rejected.
 */
module CompileHistory {
  import opened Wrappers
  import opened CompileJobs

  // ---------------------------------------------------------------- one call

  /** The job is queued for the executor and routed to the instance of the caller. */
  predicate Addressed(job: Job, call: Call) {
    job.targetExecutorId == Some(call.caller.executorId) && call.routing(job) == Some(call.caller.instanceId)
  }

  predicate RunBy(job: Job, worker: Worker) {
    job.status == Running && job.workerId == Some(worker)
  }

  predicate Open(job: Job) {
    job.status == Pending || job.status == Running
  }

  /** A worker id that was given and is not the empty text. */
  predicate Named(worker: Option<Worker>) {
    worker != None && worker != Some("")
  }

  /** A call is accepted exactly when it is for this executor and instance, and from a worker that may make it. */
  lemma AcceptedIff(job: Job, call: Call)
    ensures Apply(job, call).Ok? <==>
      match call
      case CallClaim(worker, _, caller, _, now) =>
        if !Open(job) then job.targetExecutorId == Some(caller.executorId)
        else Addressed(job, call) && (job.status == Pending || job.workerId == Some(worker) || Expired(job, now))
      case CallHeartbeat(worker, _, _, _, _) => Addressed(job, call) && RunBy(job, worker)
      case CallComplete(worker, revision, _, _, _, _) =>
        && Addressed(job, call) && RunBy(job, worker)
        && revision.Some? && revision.value.workspaceId == job.workspaceId
      case CallCancel(canceler, _, _, _, _) =>
        Addressed(job, call) &&
        (Open(job) && Named(canceler) && Named(job.workerId) ==> canceler == job.workerId)
      case CallFail(worker, _, _, _, _) => Addressed(job, call) && RunBy(job, worker)
  {
  }

  /** The calls that only the owner of a running job may make. */
  predicate ByOwner(call: Call) {
    call.CallHeartbeat? || call.CallComplete? || call.CallFail?
  }

  /** The call looks at the routing: all but the claim of a job that is over. */
  predicate LooksAtRouting(job: Job, call: Call) {
    job.targetExecutorId == Some(call.caller.executorId) && (call.CallClaim? ==> Open(job))
  }

  /** The call comes from another worker than the one that has the job. */
  predicate Foreign(job: Job, call: Call) {
    if ByOwner(call) then job.status == Running && job.workerId != Some(call.worker)
    else
      && call.CallCancel? && Open(job) && Named(call.canceler) && Named(job.workerId)
      && call.canceler != job.workerId
  }

  /** Each error says what it says. */
  lemma RejectedAs(job: Job, call: Call)
    ensures var r := Apply(job, call);
      && (r == Err(NoExecutor) <==> job.targetExecutorId == None)
      && (r == Err(OtherExecutor) <==>
            job.targetExecutorId.Some? && job.targetExecutorId.value != call.caller.executorId)
      && (r == Err(NoInstance) <==> LooksAtRouting(job, call) && call.routing(job) == None)
      && (r == Err(OtherInstance) <==>
            LooksAtRouting(job, call) && call.routing(job) !in {None, Some(call.caller.instanceId)})
      && (r == Err(AlreadyClaimed) <==>
            call.CallClaim? && Addressed(job, call) && job.status == Running
            && job.workerId != Some(call.worker) && !Expired(job, call.now))
      && (r == Err(NotRunning) <==> ByOwner(call) && Addressed(job, call) && job.status != Running)
      && (r == Err(NotOwner) <==> Addressed(job, call) && Foreign(job, call))
  {
  }

  lemma CompletionRejectedAs(job: Job, call: Call)
    requires call.CallComplete? && Addressed(job, call) && RunBy(job, call.worker)
    ensures Apply(job, call) == Err(RevisionNotFound) <==> call.revision == None
    ensures Apply(job, call) == Err(OtherWorkspace) <==>
      call.revision.Some? && call.revision.value.workspaceId != job.workspaceId
  {
  }

  // ---------------------------------------------------------------- how a job ends

  /** The `k`-th call of the run was accepted while the job was open. */
  predicate Took(start: Job, calls: seq<Call>, k: int) {
    0 <= k < |calls| && Open(At(start, calls, k)) && Apply(At(start, calls, k), calls[k]).Ok?
  }

  /** One of the first `n` calls was accepted while the job was open, and ends it in this status. */
  ghost predicate Ended(start: Job, calls: seq<Call>, n: nat, status: Status)
    requires n <= |calls|
  {
    exists k :: 0 <= k < n && Took(start, calls, k) && EndsAs(calls[k], status)
  }

  predicate EndsAs(call: Call, status: Status) {
    || (call.CallComplete? && status == Completed)
    || (call.CallFail? && status == Failed)
    || (call.CallCancel? && status == Canceled)
  }

  /** How far a job is after `n` calls is told by which of them were accepted. */
  ghost predicate StatusTells(start: Job, calls: seq<Call>, n: nat)
    requires n <= |calls|
  {
    var status := At(start, calls, n).status;
    && (status == Completed <==> Ended(start, calls, n, Completed))
    && (status == Failed <==> start.status == Failed || Ended(start, calls, n, Failed))
    && (status == Canceled <==> Ended(start, calls, n, Canceled))
    && (status == Pending <==> start.status == Pending && forall k :: 0 <= k < n ==> !Took(start, calls, k))
  }

  lemma {:induction false} StatusUpTo(start: Job, calls: seq<Call>, n: nat)
    requires (start.status == Pending || start.status == Failed) && n <= |calls|
    ensures StatusTells(start, calls, n)
  {
    if n == 0 {
      assert calls[..0] == [];
    } else {
      StatusUpTo(start, calls, n - 1);
      NextStatus(start, calls, n - 1);
    }
  }

  lemma StatusAfter(job: Job, call: Call)
    ensures !Open(job) || Apply(job, call).Err? ==> After(job, call) == job
    ensures Open(job) && Apply(job, call).Ok? ==>
      && After(job, call).status != Pending
      && forall status :: status in {Completed, Failed, Canceled} ==>
           (After(job, call).status == status <==> EndsAs(call, status))
  {
  }

  lemma EndedNext(start: Job, calls: seq<Call>, n: nat, status: Status)
    requires n < |calls|
    ensures Ended(start, calls, n + 1, status) <==>
      Ended(start, calls, n, status) || (Took(start, calls, n) && EndsAs(calls[n], status))
  {
  }

  lemma UntouchedNext(start: Job, calls: seq<Call>, n: nat)
    requires n < |calls|
    ensures (forall k :: 0 <= k < n + 1 ==> !Took(start, calls, k)) <==>
      (forall k :: 0 <= k < n ==> !Took(start, calls, k)) && !Took(start, calls, n)
  {
  }

  lemma NextStatus(start: Job, calls: seq<Call>, n: nat)
    requires n < |calls| && StatusTells(start, calls, n)
    ensures StatusTells(start, calls, n + 1)
  {
    NextMoment(start, calls, n);
    StatusAfter(At(start, calls, n), calls[n]);
    EndedNext(start, calls, n, Completed);
    EndedNext(start, calls, n, Failed);
    EndedNext(start, calls, n, Canceled);
    UntouchedNext(start, calls, n);
  }

  /**
   In every run from its creation: a job is completed, failed or canceled exactly when a completion, failure or
   cancellation was accepted while it was open, or failed at once because no instance was available; it is pending as
   long as no call was accepted.
   */
  lemma OutcomeIff(workspaceId: string, scheduled: Schedule, created: Time, calls: seq<Call>)
    ensures var start := Create(workspaceId, scheduled, created);
      var job := RunJob(start, calls);
      && (job.status == Completed <==> Ended(start, calls, |calls|, Completed))
      && (job.status == Failed <==> scheduled.Unavailable? || Ended(start, calls, |calls|, Failed))
      && (job.status == Canceled <==> Ended(start, calls, |calls|, Canceled))
      && (job.status == Pending <==>
            scheduled.Assigned? && forall k :: 0 <= k < |calls| ==> !Took(start, calls, k))
  {
    StatusUpTo(Create(workspaceId, scheduled, created), calls, |calls|);
    assert calls[..|calls|] == calls;
  }

  // ---------------------------------------------------------------- what is on record

  /** Nothing on record of an end. */
  predicate Blank(job: Job) {
    job.revisionId == None && job.error == None && job.completedAt == None && job.report == NO_REPORT
  }

  lemma CallKeepsBlank(job: Job, call: Call)
    requires Open(job) ==> Blank(job)
    ensures var job' := After(job, call);
      && (Open(job') ==> Blank(job')) && job'.workspaceId == job.workspaceId
      && job'.targetExecutorId == job.targetExecutorId && job'.createdAt == job.createdAt
  {
  }

  lemma {:induction false} OpenIsBlank(start: Job, calls: seq<Call>)
    requires Open(start) ==> Blank(start)
    ensures Open(RunJob(start, calls)) ==> Blank(RunJob(start, calls))
    ensures RunJob(start, calls).workspaceId == start.workspaceId
    ensures RunJob(start, calls).targetExecutorId == start.targetExecutorId
    ensures RunJob(start, calls).createdAt == start.createdAt
    decreases |calls|
  {
    if calls == [] {
    } else {
      OpenIsBlank(start, calls[..|calls| - 1]);
      CallKeepsBlank(RunJob(start, calls[..|calls| - 1]), calls[|calls| - 1]);
    }
  }

  /** The job is over, with what the ending call gave on record and nothing else. */
  predicate EndedBy(job: Job, call: Call, at: Time) {
    && job.completedAt == Some(at)
    && match call
       case CallComplete(worker, revision, report, _, _, _) =>
         && job.status == Completed && job.workerId == Some(worker) && job.error == None
         && revision.Some? && job.revisionId == Some(revision.value.id)
         && revision.value.workspaceId == job.workspaceId
         && Reports(job.report, report, revision.value)
       case CallFail(worker, message, _, _, _) =>
         && job.status == Failed && job.workerId == Some(worker) && job.error == Some(message)
         && job.revisionId == None && job.report == NO_REPORT
       case CallCancel(_, error, _, _, _) =>
         job.status == Canceled && job.error == error && job.revisionId == None && job.report == NO_REPORT
       case _ => false
  }

  /** The counts as reported; each version as reported, or else as the revision knows it. */
  predicate Reports(recorded: Report, report: Report, revision: Revision) {
    && recorded.declarationCount == report.declarationCount
    && recorded.fileCount == report.fileCount
    && recorded.systemCount == report.systemCount
    && Version(recorded.compilerVersion, report.compilerVersion, revision.compilerVersion)
    && Version(recorded.sourceFingerprint, report.sourceFingerprint, revision.sourceFingerprint)
    && Version(recorded.artifactFingerprint, report.artifactFingerprint, revision.artifactFingerprint)
  }

  predicate Version(recorded: Option<string>, reported: Option<string>, known: Option<string>) {
    (reported != None ==> recorded == reported) && (reported == None ==> recorded == known)
  }

  predicate Ending(call: Call) {
    call.CallComplete? || call.CallFail? || call.CallCancel?
  }

  /** Whatever calls follow, the record says which call ended the job, and what that call gave. */
  lemma EndIsOnRecord(workspaceId: string, scheduled: Schedule, created: Time, calls: seq<Call>, k: nat)
    requires var start := Create(workspaceId, scheduled, created);
      Took(start, calls, k) && Ending(calls[k])
    ensures EndedBy(RunJob(Create(workspaceId, scheduled, created), calls), calls[k], calls[k].now)
    ensures RunJob(Create(workspaceId, scheduled, created), calls).workspaceId == workspaceId
  {
    var start := Create(workspaceId, scheduled, created);
    OpenIsBlank(start, calls[..k]);
    NextMoment(start, calls, k);
    assert EndedBy(At(start, calls, k + 1), calls[k], calls[k].now);
    StaysOver(start, calls, k + 1);
    OpenIsBlank(start, calls);
  }

  lemma {:induction false} RunAppend(job: Job, a: seq<Call>, b: seq<Call>)
    ensures RunJob(job, a + b) == RunJob(RunJob(job, a), b)
    decreases |b|
  {
    if b == [] {
      assert a + b == a;
    } else {
      RunAppend(job, a, b[..|b| - 1]);
      assert (a + b)[..|a + b| - 1] == a + b[..|b| - 1];
    }
  }

  lemma StaysOver(start: Job, calls: seq<Call>, k: nat)
    requires k <= |calls| && !Open(At(start, calls, k))
    ensures RunJob(start, calls) == At(start, calls, k)
  {
    RunAppend(start, calls[..k], calls[k..]);
    assert calls[..k] + calls[k..] == calls;
    TerminalForever(At(start, calls, k), calls[k..]);
  }

  /** So a job that is over was ended by one call, unless it failed at once, and that call is on record. */
  lemma EveryEndHasACall(workspaceId: string, scheduled: Schedule, created: Time, calls: seq<Call>) returns (k: nat)
    requires !Open(RunJob(Create(workspaceId, scheduled, created), calls)) && scheduled.Assigned?
    ensures var start := Create(workspaceId, scheduled, created);
      && Took(start, calls, k) && Ending(calls[k])
      && EndedBy(RunJob(start, calls), calls[k], calls[k].now)
      && forall j :: Took(start, calls, j) ==> j <= k
  {
    var start := Create(workspaceId, scheduled, created);
    OutcomeIff(workspaceId, scheduled, created, calls);
    k :| 0 <= k < |calls| && Took(start, calls, k) && Ending(calls[k]);
    EndIsOnRecord(workspaceId, scheduled, created, calls, k);
    forall j | Took(start, calls, j) ensures j <= k {
      if j > k { NothingTakenAfter(start, calls, k, j); }
    }
  }

  lemma NothingTakenAfter(start: Job, calls: seq<Call>, k: nat, j: nat)
    requires k < j < |calls| && Took(start, calls, k) && Ending(calls[k])
    ensures !Took(start, calls, j)
  {
    NextMoment(start, calls, k);
    assert calls[..j][..k + 1] == calls[..k + 1];
    StaysOver(start, calls[..j], k + 1);
    assert RunJob(start, calls[..j]) == At(start, calls, j);
  }

  // ---------------------------------------------------------------- who works on it

  /** The `k`-th call claims the job. */
  ghost predicate ClaimedBy(start: Job, calls: seq<Call>, k: int) {
    Took(start, calls, k) && calls[k].CallClaim?
  }

  /** The `k`-th call grants a lease. */
  ghost predicate LeasedBy(start: Job, calls: seq<Call>, k: int) {
    Took(start, calls, k) && (calls[k].CallClaim? || calls[k].CallHeartbeat?)
  }

  /** Calls that claim nothing leave owner, instance and start as they are. */
  lemma {:induction false} OwnerStays(start: Job, calls: seq<Call>, m: nat, n: nat)
    requires m <= n <= |calls| && forall j :: m <= j < n ==> !ClaimedBy(start, calls, j)
    ensures var before, job := At(start, calls, m), At(start, calls, n);
      && job.workerId == before.workerId && job.startedAt == before.startedAt
      && job.assignedInstanceId == before.assignedInstanceId
  {
    if m < n {
      OwnerStays(start, calls, m, n - 1);
      NextMoment(start, calls, n - 1);
      assert !ClaimedBy(start, calls, n - 1);
    }
  }

  /** The owner on record is the worker that claimed the job last, for the instance from which it did. */
  lemma OwnerClaimedLast(start: Job, calls: seq<Call>, k: nat)
    requires ClaimedBy(start, calls, k) && forall j :: k < j < |calls| ==> !ClaimedBy(start, calls, j)
    ensures var job := RunJob(start, calls);
      && job.workerId == Some(calls[k].worker) && job.assignedInstanceId == Some(calls[k].caller.instanceId)
  {
    NextMoment(start, calls, k);
    OwnerStays(start, calls, k + 1, |calls|);
    assert calls[..|calls|] == calls;
  }

  /** A claim moves an open job to its instance and says when; no other call does. */
  lemma ClaimMoves(job: Job, call: Call)
    ensures var job' := After(job, call);
      if call.CallClaim? && Open(job) && Apply(job, call).Ok? then
        && job'.assignedInstanceId == Some(call.caller.instanceId)
        && job'.assignmentUpdatedAt ==
             if job.assignedInstanceId == Some(call.caller.instanceId) then job.assignmentUpdatedAt else call.now
      else job'.assignedInstanceId == job.assignedInstanceId && job'.assignmentUpdatedAt == job.assignmentUpdatedAt
  {
  }

  /** The start on record is the time of the first claim. */
  lemma StartedByFirstClaim(workspaceId: string, scheduled: Schedule, created: Time, calls: seq<Call>, k: nat)
    requires var start := Create(workspaceId, scheduled, created);
      ClaimedBy(start, calls, k) && forall j :: 0 <= j < k ==> !ClaimedBy(start, calls, j)
    ensures RunJob(Create(workspaceId, scheduled, created), calls).startedAt == Some(calls[k].now)
  {
    var start := Create(workspaceId, scheduled, created);
    OwnerStays(start, calls, 0, k);
    assert calls[..0] == [];
    RunLeaseOk(workspaceId, scheduled, created, calls[..k]);
    NextMoment(start, calls, k);
    StartStays(start, calls, k + 1, |calls|);
    assert calls[..|calls|] == calls;
  }

  lemma {:induction false} StartStays(start: Job, calls: seq<Call>, m: nat, n: nat)
    requires m <= n <= |calls| && At(start, calls, m).status == Running
    ensures At(start, calls, n).startedAt == At(start, calls, m).startedAt && At(start, calls, n).status != Pending
  {
    if m < n {
      StartStays(start, calls, m, n - 1);
      NextMoment(start, calls, n - 1);
    }
  }

  /** A job that nobody has claimed has no owner, start or lease on record. */
  lemma NeverClaimed(workspaceId: string, scheduled: Schedule, created: Time, calls: seq<Call>)
    requires forall k :: !ClaimedBy(Create(workspaceId, scheduled, created), calls, k)
    ensures var job := RunJob(Create(workspaceId, scheduled, created), calls);
      && job.workerId == None && job.startedAt == None && job.heartbeatAt == None && job.leaseExpiresAt == None
  {
    var start := Create(workspaceId, scheduled, created);
    OwnerStays(start, calls, 0, |calls|);
    forall j | 0 <= j < |calls| ensures !LeasedBy(start, calls, j) {
      OwnerStays(start, calls, 0, j);
      assert calls[..0] == [] && !ClaimedBy(start, calls, j);
    }
    LeaseStays(start, calls, 0, |calls|);
    assert calls[..0] == [] && calls[..|calls|] == calls;
  }

  lemma {:induction false} LeaseStays(start: Job, calls: seq<Call>, m: nat, n: nat)
    requires m <= n <= |calls| && forall j :: m <= j < n ==> !LeasedBy(start, calls, j)
    ensures At(start, calls, n).heartbeatAt == At(start, calls, m).heartbeatAt
    ensures At(start, calls, n).leaseExpiresAt == At(start, calls, m).leaseExpiresAt
  {
    if m < n {
      LeaseStays(start, calls, m, n - 1);
      NextMoment(start, calls, n - 1);
      assert !LeasedBy(start, calls, n - 1);
    }
  }

  /** Where a lease ends that is asked for at `now`. */
  lemma LeaseEnds(now: Time, leaseMs: Number)
    ensures var end := Plus(now, ClampLeaseMs(leaseMs));
      && (InWindow(leaseMs) ==> end == Finite(now + leaseMs.value))
      && (Less(leaseMs, Finite(1000.0)) ==> end == Finite(now + 1000.0))
      && (Less(Finite(600000.0), leaseMs) ==> end == Finite(now + 600000.0))
      && (leaseMs.NaN? ==> end == NaN)
  {
  }

  /** The lease on record is the one granted last: from the time of that call for the clamped span. */
  lemma LeaseGrantedLast(start: Job, calls: seq<Call>, k: nat)
    requires LeasedBy(start, calls, k) && forall j :: k < j < |calls| ==> !LeasedBy(start, calls, j)
    ensures var job, call := RunJob(start, calls), calls[k];
      && job.heartbeatAt == Some(call.now)
      && job.leaseExpiresAt == Some(Plus(call.now, ClampLeaseMs(call.leaseMs)))
  {
    NextMoment(start, calls, k);
    LeaseStays(start, calls, k + 1, |calls|);
    assert calls[..|calls|] == calls;
  }

  /** A job for which there was no instance has failed at once and for good, with the reason on record. */
  lemma UnavailableFails(workspaceId: string, scheduled: Schedule, created: Time, calls: seq<Call>)
    requires scheduled.Unavailable?
    ensures var job := RunJob(Create(workspaceId, scheduled, created), calls);
      && job.status == Failed && job.error == Some(scheduled.message) && job.completedAt == Some(created)
      && job.targetExecutorId == scheduled.executorId && job.assignedInstanceId == None && job.workerId == None
  {
    TerminalForever(Create(workspaceId, scheduled, created), calls);
  }

  /** A job made for an instance is offered to it, at any time until a call is accepted. */
  lemma CreatedIsOffered(workspaceId: string, scheduled: Schedule, created: Time, calls: seq<Call>, caller: Caller,
                         routing: Routing, now: Time)
    requires scheduled == Assigned(caller.executorId, caller.instanceId)
    requires var start := Create(workspaceId, scheduled, created);
      routing(start) == start.assignedInstanceId && forall k :: 0 <= k < |calls| ==> !Took(start, calls, k)
    ensures var start := Create(workspaceId, scheduled, created);
      RunJob(start, calls) == start && Offered(start, caller, routing, now)
  {
    NothingTaken(Create(workspaceId, scheduled, created), calls, |calls|);
    assert calls[..|calls|] == calls;
  }

  lemma {:induction false} NothingTaken(start: Job, calls: seq<Call>, n: nat)
    requires n <= |calls| && forall k :: 0 <= k < n ==> !Took(start, calls, k)
    requires Open(start)
    ensures At(start, calls, n) == start
  {
    if n == 0 {
      assert calls[..0] == [];
    } else {
      NothingTaken(start, calls, n - 1);
      NextMoment(start, calls, n - 1);
      assert !Took(start, calls, n - 1);
    }
  }
}
