/**
 Compile jobs and their leases (services/backend/convex/compileJobs.ts). A job is pending, running or terminal; a
 worker owns a running job through a lease that it extends by heartbeats and that others may take over once expired.
 Every mutation is a transaction: when it throws, the job is as before.
 */
module CompileJobs {
  import opened Wrappers

  type Time = real

  /** The numbers that the validator of a mutation admits. */
  datatype Number = Finite(value: real) | PositiveInfinity | NegativeInfinity | NaN

  type Worker = string
  type JobId = nat

  datatype Status = Pending | Running | Completed | Failed | Canceled

  /** What a worker tells about its build: three counts, and the versions that a revision may know as well. */
  datatype Report = Report(
    declarationCount: Option<nat>,
    fileCount: Option<nat>,
    systemCount: Option<nat>,
    compilerVersion: Option<string>,
    sourceFingerprint: Option<string>,
    artifactFingerprint: Option<string>)

  datatype Revision = Revision(
    id: string,
    workspaceId: string,
    compilerVersion: Option<string>,
    sourceFingerprint: Option<string>,
    artifactFingerprint: Option<string>)

  const NO_REPORT := Report(None, None, None, None, None, None)

  datatype Job = Job(
    workspaceId: string,
    targetExecutorId: Option<string>,
    assignedInstanceId: Option<string>,
    assignmentUpdatedAt: Time,
    createdAt: Time,
    status: Status,
    workerId: Option<Worker>,
    startedAt: Option<Time>,
    heartbeatAt: Option<Time>,
    leaseExpiresAt: Option<Number>,
    completedAt: Option<Time>,
    revisionId: Option<string>,
    error: Option<string>,
    report: Report)

  /** The executor and the instance that an instance token was verified for. */
  datatype Caller = Caller(executorId: string, instanceId: string)

  /** resolveEffectiveAssignedInstanceId: the healthy instance a job is effectively assigned to, if any. */
  type Routing = Job -> Option<string>

  datatype JobError =
    | NoExecutor | OtherExecutor | NoInstance | OtherInstance
    | AlreadyClaimed | NotRunning | NotOwner | LeaseExpired | RevisionNotFound | OtherWorkspace

  const MIN_LEASE_MS: Time := 1000.0
  const MAX_LEASE_MS: Time := 600000.0
  const RUNNABLE_SCAN_LIMIT: nat := 200

  /** The operator `<`: nothing is less than NaN, and NaN less than nothing. */
  predicate Less(a: Number, b: Number) {
    match (a, b)
    case (NaN, _) => false
    case (_, NaN) => false
    case (Finite(x), Finite(y)) => x < y
    case (NegativeInfinity, _) => !b.NegativeInfinity?
    case (_, PositiveInfinity) => !a.PositiveInfinity?
    case _ => false
  }

  /** The operator `>=`, which is not the negation of `<`. */
  predicate AtLeast(a: Number, b: Number) {
    !a.NaN? && !b.NaN? && !Less(a, b)
  }

  function Max(a: Number, b: Number): Number {
    if a.NaN? || b.NaN? then NaN else if Less(a, b) then b else a
  }

  function Min(a: Number, b: Number): Number {
    if a.NaN? || b.NaN? then NaN else if Less(a, b) then a else b
  }

  function Plus(a: Time, b: Number): Number {
    if b.Finite? then Finite(a + b.value) else b
  }

  predicate InWindow(x: Number) {
    x.Finite? && MIN_LEASE_MS <= x.value <= MAX_LEASE_MS
  }

  /** The clamp bounds every number but NaN, which it passes on. */
  function ClampLeaseMs(leaseMs: Number): (r: Number)
    ensures InWindow(r) <==> !leaseMs.NaN?
    ensures r.NaN? <==> leaseMs.NaN?
    ensures InWindow(leaseMs) ==> r == leaseMs
  {
    Max(Finite(MIN_LEASE_MS), Min(leaseMs, Finite(MAX_LEASE_MS)))
  }

  predicate Terminal(job: Job) {
    job.status.Completed? || job.status.Failed? || job.status.Canceled?
  }

  // ---------------------------------------------------------------- mutations

  /** What scheduleJobToExecutorInstance yields: an instance, or an error when none is available. */
  datatype Schedule =
    | Assigned(targetExecutorId: string, assignedInstanceId: string)
    | Unavailable(executorId: Option<string>, message: string)

  function Create(workspaceId: string, scheduled: Schedule, now: Time): Job {
    match scheduled
    case Assigned(executor, instance) =>
      Job(workspaceId, Some(executor), Some(instance), now, now, Pending,
          None, None, None, None, None, None, None, NO_REPORT)
    case Unavailable(executor, message) =>
      Job(workspaceId, executor, None, now, now, Failed,
          None, None, None, None, Some(now), None, Some(message), NO_REPORT)
  }

  /** requireExecutorQueueAccess. */
  function Access(job: Job, caller: Caller, routing: Routing): Result<(), JobError> {
    if job.targetExecutorId.None? then Err(NoExecutor)
    else if job.targetExecutorId.value != caller.executorId then Err(OtherExecutor)
    else match routing(job)
      case None => Err(NoInstance)
      case Some(instance) => if instance != caller.instanceId then Err(OtherInstance) else Ok(())
  }

  predicate Expired(job: Job, now: Time) {
    job.leaseExpiresAt.None? || Less(job.leaseExpiresAt.value, Finite(now))
  }

  /** What keeps a running job from being listed. A NaN lease neither expires nor does this. */
  predicate Held(job: Job, now: Time) {
    job.leaseExpiresAt.Some? && AtLeast(job.leaseExpiresAt.value, Finite(now))
  }

  function Leased(job: Job, worker: Worker, leaseMs: Number, now: Time): Job {
    job.(workerId := Some(worker), heartbeatAt := Some(now), leaseExpiresAt := Some(Plus(now, ClampLeaseMs(leaseMs))))
  }

  function Claim(job: Job, worker: Worker, leaseMs: Number, caller: Caller, routing: Routing, now: Time)
    : Result<Job, JobError>
  {
    if job.targetExecutorId.None? then Err(NoExecutor)
    else if job.targetExecutorId.value != caller.executorId then Err(OtherExecutor)
    else if Terminal(job) then Ok(job)
    else match routing(job)
      case None => Err(NoInstance)
      case Some(instance) =>
        if instance != caller.instanceId then Err(OtherInstance)
        else
          var routed := if job.assignedInstanceId != Some(instance)
                        then job.(assignedInstanceId := Some(instance), assignmentUpdatedAt := now) else job;
          if job.status.Pending? then
            Ok(Leased(routed.(status := Running, startedAt := Some(now)), worker, leaseMs, now))
          else if job.workerId == Some(worker) || Expired(job, now) then
            Ok(Leased(routed, worker, leaseMs, now))
          else Err(AlreadyClaimed)
  }

  function Heartbeat(job: Job, worker: Worker, leaseMs: Number, caller: Caller, routing: Routing, now: Time)
    : Result<Job, JobError>
  {
    var access := Access(job, caller, routing);
    if access.Err? then Err(access.error)
    else if !job.status.Running? then Err(NotRunning)
    else if job.workerId != Some(worker) then Err(NotOwner)
    else Ok(job.(heartbeatAt := Some(now), leaseExpiresAt := Some(Plus(now, ClampLeaseMs(leaseMs)))))
  }

  function OrElse(a: Option<string>, b: Option<string>): Option<string> {
    if a.Some? then a else b
  }

  /** The report, with the versions that it leaves out taken from the revision. */
  function FilledIn(report: Report, revision: Revision): Report {
    report.(
      compilerVersion := OrElse(report.compilerVersion, revision.compilerVersion),
      sourceFingerprint := OrElse(report.sourceFingerprint, revision.sourceFingerprint),
      artifactFingerprint := OrElse(report.artifactFingerprint, revision.artifactFingerprint))
  }

  /** `revision` is the revision record, when there is one. */
  function Complete(job: Job, worker: Worker, revision: Option<Revision>, report: Report, caller: Caller,
                    routing: Routing, now: Time): Result<Job, JobError>
  {
    var access := Access(job, caller, routing);
    if access.Err? then Err(access.error)
    else if !job.status.Running? then Err(NotRunning)
    else if job.workerId != Some(worker) then Err(NotOwner)
    else if revision.None? then Err(RevisionNotFound)
    else if revision.value.workspaceId != job.workspaceId then Err(OtherWorkspace)
    else Ok(job.(status := Completed, revisionId := Some(revision.value.id), completedAt := Some(now),
                 report := FilledIn(report, revision.value)))
  }

  /** A worker id that JavaScript takes for true. */
  predicate Truthy(worker: Option<Worker>) {
    worker.Some? && worker.value != ""
  }

  function Cancel(job: Job, worker: Option<Worker>, error: Option<string>, caller: Caller, routing: Routing, now: Time)
    : Result<Job, JobError>
  {
    var access := Access(job, caller, routing);
    if access.Err? then Err(access.error)
    else if Terminal(job) then Ok(job)
    else if Truthy(worker) && Truthy(job.workerId) && job.workerId != worker then Err(NotOwner)
    else Ok(job.(status := Canceled, completedAt := Some(now), error := error))
  }

  function Fail(job: Job, worker: Worker, error: string, caller: Caller, routing: Routing, now: Time)
    : Result<Job, JobError>
  {
    var access := Access(job, caller, routing);
    if access.Err? then Err(access.error)
    else if !job.status.Running? then Err(NotRunning)
    else if job.workerId != Some(worker) then Err(NotOwner)
    else Ok(job.(status := Failed, completedAt := Some(now), error := Some(error)))
  }

  /** assertRunningOwnedJob, the guard of the two build actions. */
  function RunningOwned(job: Job, worker: Worker, now: Time): Result<(), JobError> {
    if !job.status.Running? then Err(NotRunning)
    else if job.workerId != Some(worker) then Err(NotOwner)
    else if job.leaseExpiresAt.Some? && Less(job.leaseExpiresAt.value, Finite(now)) then Err(LeaseExpired)
    else Ok(())
  }

  // ---------------------------------------------------------------- runs of one job

  datatype Call =
    | CallClaim(worker: Worker, leaseMs: Number, caller: Caller, routing: Routing, now: Time)
    | CallHeartbeat(worker: Worker, leaseMs: Number, caller: Caller, routing: Routing, now: Time)
    | CallComplete(worker: Worker, revision: Option<Revision>, report: Report, caller: Caller, routing: Routing,
                   now: Time)
    | CallCancel(canceler: Option<Worker>, error: Option<string>, caller: Caller, routing: Routing, now: Time)
    | CallFail(worker: Worker, message: string, caller: Caller, routing: Routing, now: Time)

  function Apply(job: Job, call: Call): Result<Job, JobError> {
    match call
    case CallClaim(worker, leaseMs, caller, routing, now) => Claim(job, worker, leaseMs, caller, routing, now)
    case CallHeartbeat(worker, leaseMs, caller, routing, now) => Heartbeat(job, worker, leaseMs, caller, routing, now)
    case CallComplete(worker, revision, report, caller, routing, now) =>
      Complete(job, worker, revision, report, caller, routing, now)
    case CallCancel(worker, error, caller, routing, now) => Cancel(job, worker, error, caller, routing, now)
    case CallFail(worker, message, caller, routing, now) => Fail(job, worker, message, caller, routing, now)
  }

  function After(job: Job, call: Call): Job {
    match Apply(job, call) case Ok(job') => job' case Err(_) => job
  }

  function RunJob(job: Job, calls: seq<Call>): Job
    decreases |calls|
  {
    if calls == [] then job else After(RunJob(job, calls[..|calls| - 1]), calls[|calls| - 1])
  }

  /** A terminal job never changes again. */
  lemma {:induction false} TerminalForever(job: Job, calls: seq<Call>)
    requires Terminal(job)
    ensures RunJob(job, calls) == job
    decreases |calls|
  {
    if calls == [] {
    } else {
      TerminalForever(job, calls[..|calls| - 1]);
    }
  }

  predicate HasNaNLease(job: Job) {
    job.leaseExpiresAt == Some(NaN)
  }

  /** The lease, if there is one, ends between one second and ten minutes after the heartbeat. */
  predicate LeaseInBounds(job: Job) {
    job.leaseExpiresAt.Some? ==>
      && job.heartbeatAt.Some? && job.leaseExpiresAt.value.Finite?
      && job.heartbeatAt.value + MIN_LEASE_MS <= job.leaseExpiresAt.value.value <= job.heartbeatAt.value + MAX_LEASE_MS
  }

  /** A running job has an owner and a lease, a pending one has none, and a lease is NaN or in bounds. */
  ghost predicate LeaseOk(job: Job) {
    && (job.status.Running? ==> job.workerId.Some? && job.leaseExpiresAt.Some?)
    && (job.status.Pending? ==> job.workerId.None? && job.leaseExpiresAt.None?)
    && (HasNaNLease(job) || LeaseInBounds(job))
  }

  /** The call grants a lease, for a number that is none. */
  predicate GrantsNaN(job: Job, call: Call) {
    && (call.CallClaim? || call.CallHeartbeat?) && call.leaseMs.NaN?
    && Apply(job, call).Ok? && Apply(job, call).value.status.Running?
  }

  lemma CallKeepsLeaseOk(job: Job, call: Call)
    requires LeaseOk(job)
    ensures LeaseOk(After(job, call))
  {
  }

  lemma {:induction false} RunLeaseOk(workspaceId: string, scheduled: Schedule, created: Time, calls: seq<Call>)
    ensures LeaseOk(RunJob(Create(workspaceId, scheduled, created), calls))
    decreases |calls|
  {
    if calls == [] {
    } else {
      var before := calls[..|calls| - 1];
      RunLeaseOk(workspaceId, scheduled, created, before);
      CallKeepsLeaseOk(RunJob(Create(workspaceId, scheduled, created), before), calls[|calls| - 1]);
    }
  }

  /** A lease becomes NaN only where one is granted for NaN, and then it does. */
  lemma NaNIsGranted(job: Job, call: Call)
    ensures GrantsNaN(job, call) ==> HasNaNLease(After(job, call))
    ensures HasNaNLease(After(job, call)) ==> HasNaNLease(job) || GrantsNaN(job, call)
  {
  }

  /** The `k`-th moment of a run. */
  function At(job: Job, calls: seq<Call>, k: nat): Job
    requires k <= |calls|
  {
    RunJob(job, calls[..k])
  }

  lemma NextMoment(job: Job, calls: seq<Call>, k: nat)
    requires k < |calls|
    ensures At(job, calls, k + 1) == After(At(job, calls, k), calls[k])
  {
    assert calls[..k + 1][..k] == calls[..k];
  }

  lemma {:induction false} NoNaNUntil(job: Job, calls: seq<Call>, n: nat)
    requires n <= |calls| && !HasNaNLease(job)
    requires forall k :: 0 <= k < n ==> !GrantsNaN(At(job, calls, k), calls[k])
    ensures forall k :: 0 <= k <= n ==> !HasNaNLease(At(job, calls, k))
  {
    if n == 0 {
      assert calls[..0] == [];
    } else {
      NoNaNUntil(job, calls, n - 1);
      NextMoment(job, calls, n - 1);
      NaNIsGranted(At(job, calls, n - 1), calls[n - 1]);
    }
  }

  /** In every run, at every moment the lease is in bounds exactly when no lease was granted for NaN. */
  lemma LeasesStayInBounds(workspaceId: string, scheduled: Schedule, created: Time, calls: seq<Call>)
    ensures var start := Create(workspaceId, scheduled, created);
      (forall k :: 0 <= k <= |calls| ==> LeaseInBounds(At(start, calls, k))) <==>
      (forall k :: 0 <= k < |calls| ==> !GrantsNaN(At(start, calls, k), calls[k]))
  {
    var start := Create(workspaceId, scheduled, created);
    forall k | 0 <= k <= |calls| ensures LeaseInBounds(At(start, calls, k)) <==> !HasNaNLease(At(start, calls, k)) {
      RunLeaseOk(workspaceId, scheduled, created, calls[..k]);
    }
    if forall k :: 0 <= k < |calls| ==> !GrantsNaN(At(start, calls, k), calls[k]) {
      NoNaNUntil(start, calls, |calls|);
    }
    forall k | 0 <= k < |calls| && GrantsNaN(At(start, calls, k), calls[k])
      ensures exists m :: 0 <= m <= |calls| && !LeaseInBounds(At(start, calls, m))
    {
      NextMoment(start, calls, k);
      NaNIsGranted(At(start, calls, k), calls[k]);
      assert !LeaseInBounds(At(start, calls, k + 1));
    }
  }

  // ---------------------------------------------------------------- ownership

  lemma UnexpiredKeepsOwner(job: Job, call: Call)
    requires job.status.Running? && !Expired(job, call.now)
    ensures After(job, call).workerId == job.workerId
  {
  }

  /**
   Safety of ownership over runs: when the owner of a running job has changed, then at some call of the run the job
   was running with the old owner and its lease had expired.
   */
  lemma {:induction false} TakeoverNeedsExpiry(job: Job, calls: seq<Call>) returns (k: nat)
    requires job.status.Running? && RunJob(job, calls).workerId != job.workerId
    ensures k < |calls| && RunJob(job, calls[..k]).status.Running?
    ensures RunJob(job, calls[..k]).workerId == job.workerId && Expired(RunJob(job, calls[..k]), calls[k].now)
    decreases |calls|
  {
    var n := |calls| - 1;
    var before := RunJob(job, calls[..n]);
    if before.workerId != job.workerId {
      k := TakeoverNeedsExpiry(job, calls[..n]);
      assert calls[..n][..k] == calls[..k];
    } else {
      k := n;
      StaysStarted(job, calls[..n]);
    }
  }

  lemma {:induction false} StaysStarted(job: Job, calls: seq<Call>)
    requires !job.status.Pending?
    ensures !RunJob(job, calls).status.Pending?
    decreases |calls|
  {
    if calls == [] {
    } else {
      StaysStarted(job, calls[..|calls| - 1]);
    }
  }

  ghost predicate ClaimsBy(call: Call, worker: Worker) {
    call.CallClaim? && call.worker == worker
  }

  /**
   After a takeover the old worker is locked out: until it claims again, its heartbeats, completions, failures and
   builds are rejected, whatever the other workers do.
   */
  lemma {:induction false} OldWorkerLockedOut(job: Job, worker: Worker, calls: seq<Call>, last: Call)
    requires job.workerId.Some? && job.workerId != Some(worker)
    requires forall i :: 0 <= i < |calls| ==> !ClaimsBy(calls[i], worker)
    ensures var job' := RunJob(job, calls);
      && job'.workerId.Some? && job'.workerId != Some(worker)
      && ((last.CallHeartbeat? || last.CallComplete? || last.CallFail?) && last.worker == worker ==>
            Apply(job', last).Err?)
      && RunningOwned(job', worker, last.now).Err?
    decreases |calls|
  {
    if calls == [] {
    } else {
      assert !ClaimsBy(calls[|calls| - 1], worker);
      OldWorkerLockedOut(job, worker, calls[..|calls| - 1], last);
    }
  }

  /** While one worker may build, no other worker can claim the job or build it. */
  lemma BuildersExclude(job: Job, worker: Worker, other: Worker, leaseMs: Number, caller: Caller, routing: Routing,
                        now: Time)
    requires LeaseOk(job) && RunningOwned(job, worker, now).Ok? && other != worker
    ensures Claim(job, other, leaseMs, caller, routing, now).Err? && RunningOwned(job, other, now).Err?
  {
  }

  /** Heartbeats do not look at the lease: an owner nobody replaced revives an expired lease. */
  lemma HeartbeatIgnoresExpiry(job: Job, worker: Worker, leaseMs: Number, caller: Caller, routing: Routing, now: Time)
    ensures var r := Heartbeat(job, worker, leaseMs, caller, routing, now);
      && (r.Ok? <==> Access(job, caller, routing).Ok? && job.status.Running? && job.workerId == Some(worker))
      && (r.Ok? ==> !Expired(r.value, now) && RunningOwned(r.value, worker, now).Ok?)
  {
  }

  /**
   So a heartbeat shuts out another worker that could have taken the job over a moment before, and as long as the new
   lease runs.
   */
  lemma HeartbeatRevives(job: Job, worker: Worker, leaseMs: Number, caller: Caller, routing: Routing, now: Time,
                         claim: Call)
    requires LeaseOk(job) && job.status.Running? && job.workerId == Some(worker) && Expired(job, now)
    requires Access(job, caller, routing).Ok?
    requires claim.CallClaim? && claim.worker != worker && now <= claim.now
    requires leaseMs.NaN? || claim.now <= now + ClampLeaseMs(leaseMs).value
    ensures RunningOwned(job, worker, now) == Err(LeaseExpired)
    ensures var taken := Claim(job, claim.worker, claim.leaseMs, caller, routing, now);
      taken.Ok? && taken.value.workerId == Some(claim.worker)
    ensures var revived := Heartbeat(job, worker, leaseMs, caller, routing, now);
      && revived.Ok? && RunningOwned(revived.value, worker, claim.now).Ok?
      && Apply(revived.value, claim).Err?
  {
  }

  predicate IsOwnCall(call: Call, worker: Worker) {
    (call.CallClaim? || call.CallHeartbeat?) && call.worker == worker
  }

  /** A NaN lease never expires: whatever others do and however late, the job stays with its owner. */
  lemma {:induction false} NaNLeaseNeverExpires(job: Job, worker: Worker, calls: seq<Call>)
    requires job.status.Running? && job.workerId == Some(worker) && HasNaNLease(job)
    requires forall i :: 0 <= i < |calls| ==> !IsOwnCall(calls[i], worker)
    ensures var job' := RunJob(job, calls);
      && job'.workerId == Some(worker) && HasNaNLease(job') && (job'.status.Running? || Terminal(job'))
      && forall now :: !Expired(job', now)
    decreases |calls|
  {
    if calls == [] {
    } else {
      assert !IsOwnCall(calls[|calls| - 1], worker);
      NaNLeaseNeverExpires(job, worker, calls[..|calls| - 1]);
    }
  }

  // ---------------------------------------------------------------- the queue

  /** The first `limit` ids, in order, of jobs in an index range. */
  function Scan(jobs: seq<Job>, inRange: Job -> bool, limit: nat): (r: seq<JobId>)
    ensures |r| <= limit && |r| <= |jobs|
    ensures forall id :: id in r ==> id < |jobs| && inRange(jobs[id])
    decreases |jobs|
  {
    if jobs == [] then []
    else
      var earlier := Scan(jobs[..|jobs| - 1], inRange, limit);
      if |earlier| < limit && inRange(jobs[|jobs| - 1]) then earlier + [|jobs| - 1] else earlier
  }

  /** A scan that did not reach its limit is complete. */
  lemma {:induction false} ScanComplete(jobs: seq<Job>, inRange: Job -> bool, limit: nat, id: JobId)
    requires |Scan(jobs, inRange, limit)| < limit && id < |jobs| && inRange(jobs[id])
    ensures id in Scan(jobs, inRange, limit)
    decreases |jobs|
  {
    var n := |jobs| - 1;
    if id < n {
      ScanComplete(jobs[..n], inRange, limit, id);
    }
  }

  function AssignedRange(caller: Caller, status: Status): Job -> bool {
    (job: Job) => job.assignedInstanceId == Some(caller.instanceId) && job.status == status
  }

  function ExecutorRange(caller: Caller, status: Status): Job -> bool {
    (job: Job) => job.targetExecutorId == Some(caller.executorId) && job.status == status
  }

  /** A job that a listing may offer to the caller at time `now`. */
  predicate Offered(job: Job, caller: Caller, routing: Routing, now: Time) {
    && (job.status.Pending? || (job.status.Running? && !Held(job, now)))
    && Access(job, caller, routing).Ok?
  }

  /** All scanned ids, in the order in which the listing looks at them. */
  function Scanned(jobs: seq<Job>, caller: Caller): (r: seq<JobId>)
    ensures forall id :: id in r ==> id < |jobs|
  {
    Scan(jobs, AssignedRange(caller, Pending), RUNNABLE_SCAN_LIMIT) +
    Scan(jobs, AssignedRange(caller, Running), RUNNABLE_SCAN_LIMIT) +
    Scan(jobs, ExecutorRange(caller, Pending), RUNNABLE_SCAN_LIMIT) +
    Scan(jobs, ExecutorRange(caller, Running), RUNNABLE_SCAN_LIMIT)
  }

  /** The offered jobs among `ids`. */
  function OfferedAmong(jobs: seq<Job>, ids: seq<JobId>, caller: Caller, routing: Routing, now: Time): set<JobId> {
    set id | id in ids && id < |jobs| && Offered(jobs[id], caller, routing, now)
  }

  lemma OfferedOneMore(jobs: seq<Job>, ids: seq<JobId>, i: nat, caller: Caller, routing: Routing, now: Time)
    requires i < |ids| && ids[i] < |jobs|
    ensures OfferedAmong(jobs, ids[..i + 1], caller, routing, now) == OfferedAmong(jobs, ids[..i], caller, routing, now)
      + (if Offered(jobs[ids[i]], caller, routing, now) then {ids[i]} else {})
  {
    assert ids[..i + 1] == ids[..i] + [ids[i]];
  }

  /** Another worker runs the job under a NaN lease. */
  predicate HeldByNaN(job: Job, worker: Worker) {
    job.status.Running? && HasNaNLease(job) && job.workerId != Some(worker)
  }

  /** An offered job can be claimed by any worker of the instance, exactly when no other holds it by a NaN lease. */
  lemma OfferedIsClaimable(job: Job, worker: Worker, leaseMs: Number, caller: Caller, routing: Routing, now: Time)
    requires Offered(job, caller, routing, now)
    ensures var r := Claim(job, worker, leaseMs, caller, routing, now);
      && (r.Ok? <==> !HeldByNaN(job, worker))
      && (r.Err? ==> r.error == AlreadyClaimed)
      && (r.Ok? ==>
            && r.value.status == Running && r.value.workerId == Some(worker)
            && RunningOwned(r.value, worker, now).Ok?)
  {
  }

  /** A job that a worker who does not own it can claim and run is offered. */
  lemma ClaimableIsOffered(job: Job, worker: Worker, leaseMs: Number, caller: Caller, routing: Routing, now: Time)
    requires job.workerId != Some(worker)
    requires Claim(job, worker, leaseMs, caller, routing, now).Ok?
    requires Claim(job, worker, leaseMs, caller, routing, now).value.status.Running?
    ensures Offered(job, caller, routing, now)
  {
  }

  /** So a job claimed with NaN is offered to its instance at every time, and refused to every other worker. */
  lemma NaNLeaseIsOfferedInVain(job: Job, worker: Worker, other: Worker, leaseMs: Number, caller: Caller,
                                routing: Routing, now: Time, later: Time)
    requires job.status.Pending? && other != worker
    requires Claim(job, worker, NaN, caller, routing, now).Ok?
    requires Access(Claim(job, worker, NaN, caller, routing, now).value, caller, routing).Ok?
    ensures var claimed := Claim(job, worker, NaN, caller, routing, now).value;
      && Offered(claimed, caller, routing, later)
      && Claim(claimed, other, leaseMs, caller, routing, later) == Err(AlreadyClaimed)
      && RunningOwned(claimed, worker, later).Ok?
  {
  }

  class JobTable {
    var jobs: seq<Job>

    constructor ()
      ensures jobs == []
    {
      jobs := [];
    }

    method CreateCompileJob(workspaceId: string, scheduled: Schedule, now: Time) returns (id: JobId)
      modifies this
      ensures id == |old(jobs)| && jobs == old(jobs) + [Create(workspaceId, scheduled, now)]
    {
      id := |jobs|;
      var status := if scheduled.Assigned? then Pending else Failed;
      var target := if scheduled.Assigned? then Some(scheduled.targetExecutorId) else scheduled.executorId;
      var instance := if scheduled.Assigned? then Some(scheduled.assignedInstanceId) else None;
      var error := if scheduled.Unavailable? then Some(scheduled.message) else None;
      var completedAt := if scheduled.Unavailable? then Some(now) else None;
      jobs := jobs + [Job(workspaceId, target, instance, now, now, status, None, None, None, None,
                          completedAt, None, error, NO_REPORT)];
    }

    method ClaimCompileJob(id: JobId, worker: Worker, leaseMs: Number, caller: Caller, routing: Routing, now: Time)
      returns (r: Result<Status, JobError>)
      requires id < |jobs|
      modifies this
      ensures jobs == old(jobs)[id := After(old(jobs)[id], CallClaim(worker, leaseMs, caller, routing, now))]
      ensures match Claim(old(jobs)[id], worker, leaseMs, caller, routing, now)
        case Ok(job) => r == Ok(job.status)
        case Err(e) => r == Err(e)
    {
      var job := jobs[id];
      if job.targetExecutorId.None? { return Err(NoExecutor); }
      if job.targetExecutorId.value != caller.executorId { return Err(OtherExecutor); }
      if job.status.Completed? || job.status.Failed? || job.status.Canceled? { return Ok(job.status); }
      var effective := routing(job);
      if effective.None? { return Err(NoInstance); }
      if effective.value != caller.instanceId { return Err(OtherInstance); }
      var patched := job;
      if job.assignedInstanceId != effective {
        patched := patched.(assignedInstanceId := effective, assignmentUpdatedAt := now);
      }
      var leaseExpiresAt := Plus(now, ClampLeaseMs(leaseMs));
      if job.status.Pending? {
        patched := patched.(status := Running, startedAt := Some(now), workerId := Some(worker),
                            heartbeatAt := Some(now), leaseExpiresAt := Some(leaseExpiresAt));
      } else {
        var expired := if job.leaseExpiresAt.None? then true else Less(job.leaseExpiresAt.value, Finite(now));
        if job.workerId == Some(worker) || expired {
          patched := patched.(workerId := Some(worker), heartbeatAt := Some(now),
                              leaseExpiresAt := Some(leaseExpiresAt));
        } else {
          return Err(AlreadyClaimed);
        }
      }
      jobs := jobs[id := patched];
      return Ok(patched.status);
    }

    method HeartbeatCompileJob(id: JobId, worker: Worker, leaseMs: Number, caller: Caller, routing: Routing, now: Time)
      returns (r: Result<(Time, Number), JobError>)
      requires id < |jobs|
      modifies this
      ensures jobs == old(jobs)[id := After(old(jobs)[id], CallHeartbeat(worker, leaseMs, caller, routing, now))]
      ensures match Heartbeat(old(jobs)[id], worker, leaseMs, caller, routing, now)
        case Ok(job) => r == Ok((now, job.leaseExpiresAt.value))
        case Err(e) => r == Err(e)
    {
      var job := jobs[id];
      var access := Access(job, caller, routing);
      if access.Err? { return Err(access.error); }
      if !job.status.Running? { return Err(NotRunning); }
      if job.workerId != Some(worker) { return Err(NotOwner); }
      var leaseExpiresAt := Plus(now, ClampLeaseMs(leaseMs));
      jobs := jobs[id := job.(heartbeatAt := Some(now), leaseExpiresAt := Some(leaseExpiresAt))];
      return Ok((now, leaseExpiresAt));
    }

    method CompleteCompileJob(id: JobId, worker: Worker, revision: Option<Revision>, report: Report, caller: Caller,
                              routing: Routing, now: Time) returns (r: Result<(), JobError>)
      requires id < |jobs|
      modifies this
      ensures jobs ==
        old(jobs)[id := After(old(jobs)[id], CallComplete(worker, revision, report, caller, routing, now))]
      ensures match Complete(old(jobs)[id], worker, revision, report, caller, routing, now)
        case Ok(_) => r == Ok(())
        case Err(e) => r == Err(e)
    {
      var job := jobs[id];
      var access := Access(job, caller, routing);
      if access.Err? { return Err(access.error); }
      if !job.status.Running? { return Err(NotRunning); }
      if job.workerId != Some(worker) { return Err(NotOwner); }
      if revision.None? { return Err(RevisionNotFound); }
      if revision.value.workspaceId != job.workspaceId { return Err(OtherWorkspace); }
      jobs := jobs[id := job.(
        status := Completed, revisionId := Some(revision.value.id), completedAt := Some(now),
        report := FilledIn(report, revision.value))];
      return Ok(());
    }

    method CancelCompileJob(id: JobId, worker: Option<Worker>, error: Option<string>, caller: Caller,
                            routing: Routing, now: Time) returns (r: Result<(), JobError>)
      requires id < |jobs|
      modifies this
      ensures jobs == old(jobs)[id := After(old(jobs)[id], CallCancel(worker, error, caller, routing, now))]
      ensures match Cancel(old(jobs)[id], worker, error, caller, routing, now)
        case Ok(_) => r == Ok(())
        case Err(e) => r == Err(e)
    {
      var job := jobs[id];
      var access := Access(job, caller, routing);
      if access.Err? { return Err(access.error); }
      if !job.status.Running? && !job.status.Pending? { return Ok(()); }
      if Truthy(worker) && Truthy(job.workerId) && job.workerId != worker { return Err(NotOwner); }
      jobs := jobs[id := job.(status := Canceled, completedAt := Some(now), error := error)];
      return Ok(());
    }

    method FailCompileJob(id: JobId, worker: Worker, message: string, caller: Caller, routing: Routing, now: Time)
      returns (r: Result<(), JobError>)
      requires id < |jobs|
      modifies this
      ensures jobs == old(jobs)[id := After(old(jobs)[id], CallFail(worker, message, caller, routing, now))]
      ensures match Fail(old(jobs)[id], worker, message, caller, routing, now)
        case Ok(_) => r == Ok(())
        case Err(e) => r == Err(e)
    {
      var job := jobs[id];
      var access := Access(job, caller, routing);
      if access.Err? { return Err(access.error); }
      if !job.status.Running? { return Err(NotRunning); }
      if job.workerId != Some(worker) { return Err(NotOwner); }
      jobs := jobs[id := job.(status := Failed, completedAt := Some(now), error := Some(message))];
      return Ok(());
    }

    /** The loop over the pending jobs assigned to the instance. */
    method KeepPending(ids: seq<JobId>, caller: Caller, routing: Routing, now: Time) returns (kept: set<JobId>)
      requires forall id :: id in ids ==> id < |jobs| && jobs[id].status.Pending?
      ensures kept == OfferedAmong(jobs, ids, caller, routing, now)
    {
      kept := {};
      for i := 0 to |ids|
        invariant kept == OfferedAmong(jobs, ids[..i], caller, routing, now)
      {
        assert ids[i] in ids;
        OfferedOneMore(jobs, ids, i, caller, routing, now);
        if Access(jobs[ids[i]], caller, routing).Ok? { kept := kept + {ids[i]}; }
      }
      assert ids[..|ids|] == ids;
    }

    /** The loop over the running jobs assigned to the instance. */
    method KeepExpired(ids: seq<JobId>, caller: Caller, routing: Routing, now: Time) returns (kept: set<JobId>)
      requires forall id :: id in ids ==> id < |jobs| && jobs[id].status.Running?
      ensures kept == OfferedAmong(jobs, ids, caller, routing, now)
    {
      kept := {};
      for i := 0 to |ids|
        invariant kept == OfferedAmong(jobs, ids[..i], caller, routing, now)
      {
        assert ids[i] in ids;
        var job := jobs[ids[i]];
        OfferedOneMore(jobs, ids, i, caller, routing, now);
        if job.leaseExpiresAt.Some? && AtLeast(job.leaseExpiresAt.value, Finite(now)) { continue; }
        if Access(job, caller, routing).Ok? { kept := kept + {ids[i]}; }
      }
      assert ids[..|ids|] == ids;
    }

    /** The loop over the jobs of the executor, whatever instance they were assigned to. */
    method KeepRouted(ids: seq<JobId>, caller: Caller, routing: Routing, now: Time) returns (kept: set<JobId>)
      requires forall id :: id in ids ==> id < |jobs| && jobs[id].targetExecutorId == Some(caller.executorId)
      requires forall id :: id in ids ==> jobs[id].status.Pending? || jobs[id].status.Running?
      ensures kept == OfferedAmong(jobs, ids, caller, routing, now)
    {
      kept := {};
      for i := 0 to |ids|
        invariant kept == OfferedAmong(jobs, ids[..i], caller, routing, now)
      {
        assert ids[i] in ids;
        var job := jobs[ids[i]];
        OfferedOneMore(jobs, ids, i, caller, routing, now);
        if routing(job) != Some(caller.instanceId) { continue; }
        var lease := job.leaseExpiresAt;
        if job.status.Running? && lease.Some? && AtLeast(lease.value, Finite(now)) { continue; }
        kept := kept + {ids[i]};
      }
      assert ids[..|ids|] == ids;
    }

    /** Exactly the offered jobs among those scanned. */
    method RunnableCompileJobs(caller: Caller, routing: Routing, now: Time) returns (runnable: set<JobId>)
      ensures runnable == OfferedAmong(jobs, Scanned(jobs, caller), caller, routing, now)
    {
      var assignedPending := Scan(jobs, AssignedRange(caller, Pending), RUNNABLE_SCAN_LIMIT);
      var assignedRunning := Scan(jobs, AssignedRange(caller, Running), RUNNABLE_SCAN_LIMIT);
      var executorPending := Scan(jobs, ExecutorRange(caller, Pending), RUNNABLE_SCAN_LIMIT);
      var executorRunning := Scan(jobs, ExecutorRange(caller, Running), RUNNABLE_SCAN_LIMIT);
      var pending := KeepPending(assignedPending, caller, routing, now);
      var expired := KeepExpired(assignedRunning, caller, routing, now);
      var routed := KeepRouted(executorPending + executorRunning, caller, routing, now);
      runnable := pending + expired + routed;
      OfferedJoined(jobs, assignedPending, assignedRunning, caller, routing, now);
      OfferedJoined(jobs, assignedPending + assignedRunning, executorPending + executorRunning, caller, routing, now);
      assert Scanned(jobs, caller) == assignedPending + assignedRunning + (executorPending + executorRunning);
    }
  }

  lemma OfferedJoined(jobs: seq<Job>, a: seq<JobId>, b: seq<JobId>, caller: Caller, routing: Routing, now: Time)
    ensures
      OfferedAmong(jobs, a + b, caller, routing, now) ==
      OfferedAmong(jobs, a, caller, routing, now) + OfferedAmong(jobs, b, caller, routing, now)
  {
  }

  /** A listed job can be claimed at the same time by exactly the workers whom no NaN lease of another shuts out. */
  lemma ListedIsClaimable(jobs: seq<Job>, id: JobId, worker: Worker, leaseMs: Number, caller: Caller, routing: Routing,
                          now: Time)
    requires id in OfferedAmong(jobs, Scanned(jobs, caller), caller, routing, now)
    ensures var r := Claim(jobs[id], worker, leaseMs, caller, routing, now);
      && (r.Ok? <==> !HeldByNaN(jobs[id], worker))
      && (r.Ok? ==> r.value.status.Running? && r.value.workerId == Some(worker))
  {
    OfferedIsClaimable(jobs[id], worker, leaseMs, caller, routing, now);
  }

  /**
   When no scan reached its limit, the listing is complete: a job is listed exactly when a worker that does not own it
   can claim and run it, or finds it held by a NaN lease.
   */
  lemma ListedIffClaimable(jobs: seq<Job>, id: JobId, worker: Worker, leaseMs: Number, caller: Caller,
                           routing: Routing, now: Time)
    requires id < |jobs| && jobs[id].workerId != Some(worker)
    requires |Scan(jobs, ExecutorRange(caller, Pending), 200)| < 200
    requires |Scan(jobs, ExecutorRange(caller, Running), 200)| < 200
    ensures var r := Claim(jobs[id], worker, leaseMs, caller, routing, now);
      id in OfferedAmong(jobs, Scanned(jobs, caller), caller, routing, now) <==>
      || (r.Ok? && r.value.status.Running?)
      || (HeldByNaN(jobs[id], worker) && Access(jobs[id], caller, routing).Ok?)
  {
    if Offered(jobs[id], caller, routing, now) {
      OfferedIsClaimable(jobs[id], worker, leaseMs, caller, routing, now);
      ScanComplete(jobs, ExecutorRange(caller, jobs[id].status), RUNNABLE_SCAN_LIMIT, id);
    }
    var r := Claim(jobs[id], worker, leaseMs, caller, routing, now);
    if r.Ok? && r.value.status.Running? {
      ClaimableIsOffered(jobs[id], worker, leaseMs, caller, routing, now);
    }
  }
}
