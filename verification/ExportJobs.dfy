/**
  Background export jobs: the row transitions
  (packages/ledger/ma_export_job_repository.py:50-209) and the runner that drives
  a job through three sessions (packages/jobs/ma_export_runner.py:178-260). Each
  session is one atomic step; anything may fail in between, and a commit may be
  applied although its caller sees an exception.
 */
module ExportJobs {
  import opened Wrappers
  import opened Primitives
  import opened CanonicalJson

  const MAX_ERROR := 2048

  datatype JobStatus = Pending | Running | Completed | Failed

  datatype Job = Job(
    tenantId: Uuid, scopeStart: Time, scopeEnd: Time, status: JobStatus, requestedAt: Time,
    startedAt: Option<Time>, completedAt: Option<Time>, resultExport: Option<Json>, resultError: Option<string>)

  type Jobs = map<Uuid, Job>

  datatype JobError = InvertedScope | NotFound | WrongStatus(status: JobStatus)

  predicate Terminal(s: JobStatus)
  {
    s.Completed? || s.Failed?
  }

  // ----- Row transitions -----

  function Create(jobs: Jobs, id: Uuid, tenantId: Uuid, start: Time, end: Time, now: Time): Result<Jobs, JobError>
    requires id !in jobs
  {
    if end < start then Failure(InvertedScope)
    else Success(jobs[id := Job(tenantId, start, end, Pending, now, None, None, None, None)])
  }

  function MarkRunning(jobs: Jobs, id: Uuid, now: Time): Result<Jobs, JobError>
  {
    if id !in jobs then Failure(NotFound)
    else if !jobs[id].status.Pending? then Failure(WrongStatus(jobs[id].status))
    else Success(jobs[id := jobs[id].(status := Running, startedAt := Some(now))])
  }

  function MarkCompleted(jobs: Jobs, id: Uuid, payload: Json, now: Time): Result<Jobs, JobError>
  {
    if id !in jobs then Failure(NotFound)
    else if !jobs[id].status.Running? then Failure(WrongStatus(jobs[id].status))
    else Success(jobs[id := jobs[id].(status := Completed, resultExport := Some(payload), completedAt := Some(now))])
  }

  function MarkFailed(jobs: Jobs, id: Uuid, message: string, now: Time): Result<Jobs, JobError>
  {
    if id !in jobs then Failure(NotFound)
    else if Terminal(jobs[id].status) then Failure(WrongStatus(jobs[id].status))
    else Success(jobs[id := jobs[id].(status := Failed, resultError := Some(Truncated(message)), completedAt := Some(now))])
  }

  /** `error_message[:2048]` */
  function Truncated(s: string): (t: string)
    ensures t <= s && |t| == if |s| <= 2048 then |s| else 2048
  {
    if |s| <= MAX_ERROR then s else s[..MAX_ERROR]
  }

  // ----- Sessions -----

  /** How a session's database work goes wrong, if it does. */
  datatype Fault = NoFault | BeforeCommit(message: string) | AfterCommit(message: string)

  /** What the pipeline, the signing and the serialising come to. */
  datatype Work = Built(payload: Json) | BuildFailed(message: string)

  /** The rows after a session, and the exception its caller sees. */
  datatype SessionEnd = SessionEnd(jobs: Jobs, exception: Option<string>)

  function Message(e: JobError): string
  {
    match e
    case InvertedScope => "scope_end must be >= scope_start"
    case NotFound => "job not found"
    case WrongStatus(_) => "wrong status"
  }

  function Commit(before: Jobs, after: Result<Jobs, JobError>, fault: Fault): SessionEnd
  {
    match after
    case Failure(e) => SessionEnd(before, Some(Message(e)))
    case Success(jobs) =>
      match fault
      case NoFault => SessionEnd(jobs, None)
      case BeforeCommit(message) => SessionEnd(before, Some(message))
      case AfterCommit(message) => SessionEnd(jobs, Some(message))
  }

  function SessionA(jobs: Jobs, id: Uuid, fault: Fault, now: Time): SessionEnd
  {
    Commit(jobs, MarkRunning(jobs, id, now), fault)
  }

  function SessionB(jobs: Jobs, id: Uuid, work: Work, fault: Fault, now: Time): SessionEnd
  {
    match work
    case BuildFailed(message) => SessionEnd(jobs, Some(message))
    case Built(payload) => Commit(jobs, MarkCompleted(jobs, id, payload, now), fault)
  }

  function SessionC(jobs: Jobs, id: Uuid, message: string, fault: Fault, now: Time): SessionEnd
  {
    Commit(jobs, MarkFailed(jobs, id, message, now), fault)
  }

  // ----- Any number of runners -----

  /** A runner is refused before the lock, or passes it and then returns or gets stuck. */
  datatype Runner =
    | Refused(job: Uuid)
    | Working(job: Uuid)
    | Failing(job: Uuid, message: string)
    | Returned(job: Uuid)
    | Stuck(job: Uuid)

  datatype System = System(jobs: Jobs, runners: map<nat, Runner>)

  datatype Action =
    | Submit(id: Uuid, tenantId: Uuid, start: Time, end: Time, now: Time)
    | Start(runner: nat, id: Uuid, fault: Fault, now: Time)
    | DoWork(runner: nat, work: Work, fault: Fault, now: Time)
    | Record(runner: nat, fault: Fault, now: Time)
    | Sweep(id: Uuid, message: string, now: Time)

  function Step(s: System, a: Action): System
  {
    match a
    case Submit(id, tenantId, start, end, now) =>
      if id in s.jobs then s
      else (match Create(s.jobs, id, tenantId, start, end, now)
            case Failure(_) => s
            case Success(jobs) => s.(jobs := jobs))
    case Start(r, id, fault, now) =>
      if r in s.runners then s
      else
        var end := SessionA(s.jobs, id, fault, now);
        System(end.jobs, s.runners[r := if end.exception.None? then Working(id) else Refused(id)])
    case DoWork(r, work, fault, now) =>
      if r !in s.runners || !s.runners[r].Working? then s
      else
        var id := s.runners[r].job;
        var end := SessionB(s.jobs, id, work, fault, now);
        System(end.jobs, s.runners[r := match end.exception case None => Returned(id) case Some(m) => Failing(id, m)])
    case Record(r, fault, now) =>
      if r !in s.runners || !s.runners[r].Failing? then s
      else
        var id := s.runners[r].job;
        var end := SessionC(s.jobs, id, s.runners[r].message, fault, now);
        System(end.jobs, s.runners[r := if end.exception.None? then Returned(id) else Stuck(id)])
    case Sweep(id, message, now) =>
      (match MarkFailed(s.jobs, id, message, now)
       case Failure(_) => s
       case Success(jobs) => s.(jobs := jobs))
  }

  function Run(actions: seq<Action>): System
  {
    if actions == [] then System(map[], map[]) else Step(Run(actions[..|actions| - 1]), actions[|actions| - 1])
  }

  // ----- What every reachable state keeps -----

  /** A result exactly when completed, a bounded error exactly when failed, times to match. */
  ghost predicate Shaped(j: Job)
  {
    && (j.resultExport.Some? <==> j.status.Completed?)
    && (j.resultError.Some? <==> j.status.Failed?)
    && (j.resultError.Some? ==> |j.resultError.value| <= MAX_ERROR)
    && (j.completedAt.Some? <==> Terminal(j.status))
    && (j.status.Pending? ==> j.startedAt.None?)
    && (j.status.Running? || j.status.Completed? ==> j.startedAt.Some?)
    && j.scopeStart <= j.scopeEnd
  }

  predicate PassedLock(r: Runner)
  {
    !r.Refused?
  }

  /** No two runners have passed the lock of one job. */
  ghost predicate OneRunnerPerJob(s: System)
  {
    forall r, q :: r in s.runners && q in s.runners && PassedLock(s.runners[r]) && PassedLock(s.runners[q]) ==>
      (s.runners[r].job == s.runners[q].job ==> r == q)
  }

  ghost predicate AllShaped(jobs: Jobs)
  {
    forall id :: id in jobs ==> Shaped(jobs[id])
  }

  ghost predicate Invariant(s: System)
  {
    && AllShaped(s.jobs)
    && (forall r :: r in s.runners && PassedLock(s.runners[r]) ==>
          s.runners[r].job in s.jobs && !s.jobs[s.runners[r].job].status.Pending?)
    && OneRunnerPerJob(s)
    && (forall r :: r in s.runners && s.runners[r].Returned? ==>
          s.runners[r].job in s.jobs && Terminal(s.jobs[s.runners[r].job].status))
  }

  /** No row disappears or goes back to pending, and a terminal row does not change at all. */
  ghost predicate OnlyForward(jobs: Jobs, jobs': Jobs)
  {
    forall id :: id in jobs ==>
      && id in jobs'
      && (Terminal(jobs[id].status) ==> jobs'[id] == jobs[id])
      && (jobs'[id].status.Pending? ==> jobs[id].status.Pending?)
  }

  ghost predicate Moved(jobs: Jobs, jobs': Jobs)
  {
    AllShaped(jobs') && OnlyForward(jobs, jobs')
  }

  lemma CommitMoves(jobs: Jobs, after: Result<Jobs, JobError>, fault: Fault)
    requires AllShaped(jobs) && (after.Success? ==> Moved(jobs, after.value))
    ensures Moved(jobs, Commit(jobs, after, fault).jobs)
    ensures Commit(jobs, after, fault).exception.None? <==> after.Success? && fault.NoFault?
    ensures Commit(jobs, after, fault).exception.None? ==> Commit(jobs, after, fault).jobs == after.value
  {
    hide Shaped;
  }

  lemma SessionAMoves(jobs: Jobs, id: Uuid, fault: Fault, now: Time)
    requires AllShaped(jobs)
    ensures var end := SessionA(jobs, id, fault, now);
      && Moved(jobs, end.jobs)
      && (end.exception.None? ==>
            id in jobs && jobs[id].status.Pending? && id in end.jobs && end.jobs[id].status.Running?)
  {
    CommitMoves(jobs, MarkRunning(jobs, id, now), fault);
  }

  lemma SessionBMoves(jobs: Jobs, id: Uuid, work: Work, fault: Fault, now: Time)
    requires AllShaped(jobs)
    ensures var end := SessionB(jobs, id, work, fault, now);
      && Moved(jobs, end.jobs)
      && (end.exception.None? ==> id in end.jobs && end.jobs[id].status.Completed?)
  {
    if work.Built? {
      CommitMoves(jobs, MarkCompleted(jobs, id, work.payload, now), fault);
    }
  }

  lemma SessionCMoves(jobs: Jobs, id: Uuid, message: string, fault: Fault, now: Time)
    requires AllShaped(jobs)
    ensures var end := SessionC(jobs, id, message, fault, now);
      && Moved(jobs, end.jobs)
      && (end.exception.None? ==> id in end.jobs && end.jobs[id].status.Failed?)
  {
    CommitMoves(jobs, MarkFailed(jobs, id, message, now), fault);
  }

  /** Runners are unaffected by rows moving forward. */
  lemma ForwardKeepsRunners(s: System, jobs: Jobs)
    requires Invariant(s) && Moved(s.jobs, jobs)
    ensures Invariant(s.(jobs := jobs))
  {
    hide Shaped;
  }

  lemma StartKeeps(s: System, r: nat, id: Uuid, fault: Fault, now: Time)
    requires Invariant(s) && r !in s.runners
    ensures Invariant(Step(s, Start(r, id, fault, now)))
    ensures OnlyForward(s.jobs, Step(s, Start(r, id, fault, now)).jobs)
  {
    hide AllShaped, SessionA;
    SessionAMoves(s.jobs, id, fault, now);
    ForwardKeepsRunners(s, SessionA(s.jobs, id, fault, now).jobs);
  }

  lemma DoWorkKeeps(s: System, r: nat, work: Work, fault: Fault, now: Time)
    requires Invariant(s) && r in s.runners && s.runners[r].Working?
    ensures Invariant(Step(s, DoWork(r, work, fault, now)))
    ensures OnlyForward(s.jobs, Step(s, DoWork(r, work, fault, now)).jobs)
  {
    hide AllShaped, SessionB;
    SessionBMoves(s.jobs, s.runners[r].job, work, fault, now);
    ForwardKeepsRunners(s, SessionB(s.jobs, s.runners[r].job, work, fault, now).jobs);
  }

  lemma RecordKeeps(s: System, r: nat, fault: Fault, now: Time)
    requires Invariant(s) && r in s.runners && s.runners[r].Failing?
    ensures Invariant(Step(s, Record(r, fault, now)))
    ensures OnlyForward(s.jobs, Step(s, Record(r, fault, now)).jobs)
  {
    hide AllShaped, SessionC;
    var runner := s.runners[r];
    SessionCMoves(s.jobs, runner.job, runner.message, fault, now);
    ForwardKeepsRunners(s, SessionC(s.jobs, runner.job, runner.message, fault, now).jobs);
  }

  lemma StepKeepsInvariant(s: System, a: Action)
    requires Invariant(s)
    ensures Invariant(Step(s, a)) && OnlyForward(s.jobs, Step(s, a).jobs)
  {
    hide Invariant, SessionA, SessionB, SessionC;
    match a
    case Submit(id, tenantId, start, end, now) => SubmitKeeps(s, id, tenantId, start, end, now);
    case Start(r, id, fault, now) =>
      if r !in s.runners {
        StartKeeps(s, r, id, fault, now);
      }
    case DoWork(r, work, fault, now) =>
      if r in s.runners && s.runners[r].Working? {
        DoWorkKeeps(s, r, work, fault, now);
      }
    case Record(r, fault, now) =>
      if r in s.runners && s.runners[r].Failing? {
        RecordKeeps(s, r, fault, now);
      }
    case Sweep(id, message, now) => SweepKeeps(s, id, message, now);
  }

  lemma SubmitKeeps(s: System, id: Uuid, tenantId: Uuid, start: Time, end: Time, now: Time)
    requires Invariant(s)
    ensures var s' := Step(s, Submit(id, tenantId, start, end, now)); Invariant(s') && OnlyForward(s.jobs, s'.jobs)
  {
    var s' := Step(s, Submit(id, tenantId, start, end, now));
    ForwardKeepsRunners(s, s'.jobs);
  }

  lemma SweepKeeps(s: System, id: Uuid, message: string, now: Time)
    requires Invariant(s)
    ensures var s' := Step(s, Sweep(id, message, now)); Invariant(s') && OnlyForward(s.jobs, s'.jobs)
  {
    var s' := Step(s, Sweep(id, message, now));
    ForwardKeepsRunners(s, s'.jobs);
  }

  lemma {:induction false} RunKeepsInvariant(actions: seq<Action>)
    ensures Invariant(Run(actions))
  {
    hide Step;
    if actions != [] {
      hide Invariant;
      RunKeepsInvariant(actions[..|actions| - 1]);
      StepKeepsInvariant(Run(actions[..|actions| - 1]), actions[|actions| - 1]);
    }
  }

  /**
    Whatever the interleaving of runners, sweeps and failures: a result is present
    exactly on completed jobs, an error of at most 2048 characters exactly on
    failed ones; at most one runner per job passes the lock; and a runner that
    returns normally has left its job terminal.
   */
  lemma JobsAreSafe(actions: seq<Action>)
    ensures var s := Run(actions);
      && (forall id :: id in s.jobs ==> Shaped(s.jobs[id]))
      && OneRunnerPerJob(s)
      && (forall r :: r in s.runners && s.runners[r].Returned? ==>
            s.runners[r].job in s.jobs && Terminal(s.jobs[s.runners[r].job].status))
  {
    hide Run, Shaped;
    RunKeepsInvariant(actions);
  }

  /** A terminal row never changes again. */
  lemma {:induction false} TerminalRowsAreFinal(actions: seq<Action>, later: seq<Action>, id: Uuid)
    requires id in Run(actions).jobs && Terminal(Run(actions).jobs[id].status)
    ensures id in Run(actions + later).jobs && Run(actions + later).jobs[id] == Run(actions).jobs[id]
    decreases |later|
  {
    hide Step, Invariant;
    if later == [] {
      assert actions + later == actions;
    } else {
      var n := |later| - 1;
      var before := actions + later[..n];
      TerminalRowsAreFinal(actions, later[..n], id);
      assert actions + later == before + [later[n]];
      assert (before + [later[n]])[..|before|] == before;
      RunKeepsInvariant(before);
      StepKeepsInvariant(Run(before), later[n]);
    }
  }

  /** A runner gets stuck only when its failure could not be recorded: session C failed, or the job was terminal already. */
  lemma StuckOnlyWhenUnrecorded(s: System, r: nat, fault: Fault, now: Time)
    requires Invariant(s) && r in s.runners && s.runners[r].Failing?
    ensures Step(s, Record(r, fault, now)).runners[r].Stuck?
       <==> !fault.NoFault? || Terminal(s.jobs[s.runners[r].job].status)
  {
    hide Shaped;
  }

  // ----- One undisturbed runner -----

  /** A row moving on: only these fields change. */
  ghost function RunningSince(j: Job, now: Time): Job
  {
    Job(j.tenantId, j.scopeStart, j.scopeEnd, Running, j.requestedAt, Some(now), j.completedAt, j.resultExport, j.resultError)
  }

  ghost function CompletedWith(j: Job, payload: Json, now: Time): Job
  {
    Job(j.tenantId, j.scopeStart, j.scopeEnd, Completed, j.requestedAt, j.startedAt, Some(now), Some(payload), j.resultError)
  }

  ghost function FailedWith(j: Job, message: string, now: Time): Job
  {
    Job(j.tenantId, j.scopeStart, j.scopeEnd, Failed, j.requestedAt, j.startedAt, Some(now), j.resultExport,
        Some(if |message| <= 2048 then message else message[..2048]))
  }

  /** What went wrong before the result was committed, if anything. */
  function WorkError(work: Work, faultB: Fault): Option<string>
  {
    match work
    case BuildFailed(message) => Some(message)
    case Built(_) => if faultB.BeforeCommit? then Some(faultB.message) else None
  }

  /**
    Every end a run can come to: the lock is refused or its commit fails; the result
    is committed, whether or not the caller learns of it; or the error is recorded,
    unless that fails too and the job stays running.
   */
  ghost predicate RunEnds(
    jobs: Jobs, jobs': Jobs, id: Uuid, work: Work, faultA: Fault, faultB: Fault, faultC: Fault,
    nowA: Time, nowB: Time, nowC: Time, returned: bool
  )
  {
    if id !in jobs || jobs[id].status != Pending || faultA.BeforeCommit? then !returned && jobs' == jobs
    else
      var running := RunningSince(jobs[id], nowA);
      if faultA.AfterCommit? then !returned && jobs' == jobs[id := running]
      else match WorkError(work, faultB)
        case None => (returned <==> faultB.NoFault?) && jobs' == jobs[id := CompletedWith(running, work.payload, nowB)]
        case Some(message) =>
          && (returned <==> faultC.NoFault?)
          && jobs' == jobs[id := if faultC.BeforeCommit? then running else FailedWith(running, message, nowC)]
  }

  /** A job is submitted pending and once; a sweep fails any job that is not terminal. */
  lemma SubmitAndSweep(s: System, id: Uuid, tenantId: Uuid, start: Time, end: Time, message: string, now: Time)
    ensures Step(s, Submit(id, tenantId, start, end, now)).jobs
         == if id !in s.jobs && start <= end
            then s.jobs[id := Job(tenantId, start, end, Pending, now, None, None, None, None)] else s.jobs
    ensures Step(s, Sweep(id, message, now)).jobs
         == if id in s.jobs && (s.jobs[id].status == Pending || s.jobs[id].status == Running)
            then s.jobs[id := FailedWith(s.jobs[id], message, now)] else s.jobs
  {
  }

  lemma StartEnds(s: System, r: nat, id: Uuid, fault: Fault, now: Time)
    requires r !in s.runners
    ensures var locked := id in s.jobs && s.jobs[id].status == Pending;
            Step(s, Start(r, id, fault, now))
              == System(if locked && !fault.BeforeCommit? then s.jobs[id := RunningSince(s.jobs[id], now)] else s.jobs,
                        s.runners[r := if locked && fault.NoFault? then Working(id) else Refused(id)])
  {
  }

  lemma WorkEnds(s: System, r: nat, id: Uuid, work: Work, fault: Fault, now: Time)
    requires r in s.runners && s.runners[r] == Working(id) && id in s.jobs && s.jobs[id].status == Running
    ensures var done := work.Built? && !fault.BeforeCommit?;
            Step(s, DoWork(r, work, fault, now))
              == System(if done then s.jobs[id := CompletedWith(s.jobs[id], work.payload, now)] else s.jobs,
                        s.runners[r := if done && fault.NoFault? then Returned(id)
                                       else Failing(id, if work.BuildFailed? then work.message else fault.message)])
  {
  }

  lemma RecordEnds(s: System, r: nat, id: Uuid, message: string, fault: Fault, now: Time)
    requires r in s.runners && s.runners[r] == Failing(id, message) && id in s.jobs
    ensures var recorded := (s.jobs[id].status == Pending || s.jobs[id].status == Running) && !fault.BeforeCommit?;
            Step(s, Record(r, fault, now))
              == System(if recorded then s.jobs[id := FailedWith(s.jobs[id], message, now)] else s.jobs,
                        s.runners[r := if recorded && fault.NoFault? then Returned(id) else Stuck(id)])
  {
  }

  /** The three steps of one runner with nothing in between come to the same end. */
  lemma RunnerIsOneRun(
    s: System, r: nat, id: Uuid, work: Work, faultA: Fault, faultB: Fault, faultC: Fault, nowA: Time, nowB: Time, nowC: Time
  )
    requires r !in s.runners
    ensures var s' := Step(Step(Step(s, Start(r, id, faultA, nowA)), DoWork(r, work, faultB, nowB)), Record(r, faultC, nowC));
            r in s'.runners
            && RunEnds(s.jobs, s'.jobs, id, work, faultA, faultB, faultC, nowA, nowB, nowC, s'.runners[r].Returned?)
  {
    hide SessionA, SessionB, SessionC, FailedWith, CompletedWith;
    var s1 := Step(s, Start(r, id, faultA, nowA));
    var s2 := Step(s1, DoWork(r, work, faultB, nowB));
    StartEnds(s, r, id, faultA, nowA);
    if s1.runners[r].Working? {
      WorkEnds(s1, r, id, work, faultB, nowB);
      if s2.runners[r].Failing? {
        CompletedIs(s1.jobs[id], work, nowB);
        RecordEnds(s2, r, id, s2.runners[r].message, faultC, nowC);
      }
    }
  }

  lemma CompletedIs(j: Job, work: Work, now: Time)
    ensures work.Built? ==> CompletedWith(j, work.payload, now).status == Completed
  {
  }

  // ----- The row methods -----

  /** A method did what its specification says, or named its error and changed nothing. */
  ghost predicate Outcome(next: Result<Jobs, JobError>, jobs: Jobs, jobs': Jobs, error: Option<JobError>)
  {
    match error
    case None => next == Success(jobs')
    case Some(e) => next == Failure(e) && jobs' == jobs
  }

  class JobStore {
    var jobs: Jobs

    constructor ()
      ensures jobs == map[]
    {
      jobs := map[];
    }

    method CreateJob(id: Uuid, tenantId: Uuid, start: Time, end: Time, now: Time) returns (error: Option<JobError>)
      requires id !in jobs
      modifies this
      ensures Outcome(Create(old(jobs), id, tenantId, start, end, now), old(jobs), jobs, error)
      ensures error == if start <= end then None else Some(InvertedScope)
      ensures error.None? ==> jobs == old(jobs)[id := Job(tenantId, start, end, Pending, now, None, None, None, None)]
    {
      if end < start {
        return Some(InvertedScope);
      }
      jobs := jobs[id := Job(tenantId, start, end, Pending, now, None, None, None, None)];
      return None;
    }

    method MarkPendingToRunning(id: Uuid, now: Time) returns (error: Option<JobError>)
      modifies this
      ensures Outcome(MarkRunning(old(jobs), id, now), old(jobs), jobs, error)
      ensures error == if id !in old(jobs) then Some(NotFound)
                       else if old(jobs)[id].status == Pending then None else Some(WrongStatus(old(jobs)[id].status))
      ensures error.None? ==> jobs == old(jobs)[id := RunningSince(old(jobs)[id], now)]
    {
      if id !in jobs {
        return Some(NotFound);
      }
      var row := jobs[id];
      if row.status != Pending {
        return Some(WrongStatus(row.status));
      }
      row := row.(status := Running);
      row := row.(startedAt := Some(now));
      jobs := jobs[id := row];
      return None;
    }

    method MarkRunningToCompleted(id: Uuid, payload: Json, now: Time) returns (error: Option<JobError>)
      modifies this
      ensures Outcome(MarkCompleted(old(jobs), id, payload, now), old(jobs), jobs, error)
      ensures error == if id !in old(jobs) then Some(NotFound)
                       else if old(jobs)[id].status == Running then None else Some(WrongStatus(old(jobs)[id].status))
      ensures error.None? ==> jobs == old(jobs)[id := CompletedWith(old(jobs)[id], payload, now)]
    {
      if id !in jobs {
        return Some(NotFound);
      }
      var row := jobs[id];
      if row.status == Completed || row.status == Failed {
        return Some(WrongStatus(row.status));
      }
      if row.status != Running {
        return Some(WrongStatus(row.status));
      }
      row := row.(status := Completed);
      row := row.(resultExport := Some(payload));
      row := row.(completedAt := Some(now));
      jobs := jobs[id := row];
      return None;
    }

    method MarkJobFailed(id: Uuid, message: string, now: Time) returns (error: Option<JobError>)
      modifies this
      ensures Outcome(MarkFailed(old(jobs), id, message, now), old(jobs), jobs, error)
      ensures error == if id !in old(jobs) then Some(NotFound)
                       else if old(jobs)[id].status == Pending || old(jobs)[id].status == Running then None
                       else Some(WrongStatus(old(jobs)[id].status))
      ensures error.None? ==> jobs == old(jobs)[id := FailedWith(old(jobs)[id], message, now)]
    {
      if id !in jobs {
        return Some(NotFound);
      }
      var row := jobs[id];
      if row.status == Completed || row.status == Failed {
        return Some(WrongStatus(row.status));
      }
      row := row.(status := Failed);
      row := row.(resultError := Some(Truncated(message)));
      row := row.(completedAt := Some(now));
      jobs := jobs[id := row];
      return None;
    }

    /**
      `run_ma_export_job` with nobody beside it, its three sessions at three moments.
      It raises without touching a job that is not pending; otherwise the job ends
      completed with the payload, or failed with the message, or - when the lock's
      commit or the recording of the failure goes wrong - the call raises.
     */
    method RunJob(
      id: Uuid, work: Work, faultA: Fault, faultB: Fault, faultC: Fault, nowA: Time, nowB: Time, nowC: Time
    ) returns (returned: bool)
      modifies this
      ensures RunEnds(old(jobs), jobs, id, work, faultA, faultB, faultC, nowA, nowB, nowC, returned)
    {
      var unlocked := jobs;
      var errorA := MarkPendingToRunning(id, nowA);
      if errorA.Some? {
        return false;
      }
      if !faultA.NoFault? {
        if faultA.BeforeCommit? {
          jobs := unlocked;
        }
        return false;
      }
      var exception: Option<string>;
      match work {
        case BuildFailed(message) => exception := Some(message);
        case Built(payload) =>
          var saved := jobs;
          var errorB := MarkRunningToCompleted(id, payload, nowB);
          assert errorB.None?;
          if faultB.NoFault? {
            exception := None;
          } else {
            if faultB.BeforeCommit? {
              jobs := saved;
            }
            exception := Some(faultB.message);
          }
      }
      if exception.None? {
        return true;
      }
      var saved := jobs;
      var errorC := MarkJobFailed(id, exception.value, nowC);
      if errorC.Some? {
        return false;
      }
      if faultC.BeforeCommit? {
        jobs := saved;
      }
      return faultC.NoFault?;
    }
  }
}
