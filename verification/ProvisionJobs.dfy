/**
  Provisioning jobs of src/lib/super-admin.ts: the status machine with its two-person rule, and the execution of
  a job's plan step by step. Executions of several callers interleave at every awaited step.
  */
module ProvisionJobs {
  import opened Wrappers
  import opened ProvisionRunner

  datatype Status = Queued | Approved | Running | Completed | Failed | Rejected | Cancelled

  datatype Action = Approve | Reject | Cancel

  datatype StepResult = StepResult(key: string, ok: bool, skipped: bool)

  /** An empty `approvedBy` stands for the null of a job that nobody has approved. */
  datatype Job = Job(
    status: Status, bootstrap: bool, dryRun: bool, requestDryRun: bool,
    requestedBy: string, approvedBy: string, plan: seq<PlanItem>, results: seq<StepResult>)

  // ---------------------------------------------------------------------------
  // Transitions

  function TransitionError(status: Status, action: Action): Option<string> {
    if status in [Running, Completed, Cancelled] then Some("Job status is immutable")
    else
      match action
      case Approve => if status in [Queued, Rejected, Failed] then None else Some("Cannot approve job")
      case Reject => if status in [Queued, Approved, Failed] then None else Some("Cannot reject job")
      case Cancel => if status in [Queued, Approved, Failed, Rejected] then None else Some("Cannot cancel job")
  }

  /** An action is permitted exactly if the job is not running, completed or cancelled and the action changes its status. */
  lemma PermittedActions(job: Job, actor: string, action: Action)
    ensures TransitionError(job.status, action) == None <==>
      job.status !in [Running, Completed, Cancelled] && Transitioned(job, actor, action).status != job.status
  {
  }

  function Transitioned(job: Job, actor: string, action: Action): Job {
    match action
    case Approve => job.(status := Approved, approvedBy := actor)
    case Reject => job.(status := Rejected)
    case Cancel => job.(status := Cancelled)
  }

  /** The checks before an execution; `artifactsWritten` is whether writing the gateway files succeeds. */
  function StartError(job: Job, actor: string, artifactsWritten: bool): Option<string> {
    if job.status != Approved then Some("Job must be approved before execution")
    else if job.plan == [] then Some("Job plan is empty")
    else if job.requestDryRun != job.dryRun then Some("Job dry_run metadata mismatch detected")
    else if job.approvedBy == "" then Some("Missing approver")
    else if !job.dryRun && job.approvedBy == job.requestedBy then Some("Two-person rule violation: requester")
    else if !job.dryRun && job.approvedBy == actor then Some("Two-person rule violation: runner")
    else if job.bootstrap && !artifactsWritten then Some("artifact generation failed")
    else None
  }

  /** An approved job may start exactly if its plan, its mode, its artifacts and, for a live job, the two-person rule are in order. */
  lemma StartsExactly(job: Job, actor: string, artifactsWritten: bool)
    ensures StartError(job, actor, artifactsWritten) == None <==>
      && job.status == Approved && job.plan != [] && (job.requestDryRun <==> job.dryRun) && job.approvedBy != ""
      && (job.dryRun || job.approvedBy !in {job.requestedBy, actor})
      && (artifactsWritten || !job.bootstrap)
  {
  }

  class JobTable {
    var jobs: map<nat, Job>

    method TransitionProvisionJobStatus(id: nat, actor: string, action: Action) returns (error: Option<string>)
      modifies this
      ensures error == if id in old(jobs) then TransitionError(old(jobs)[id].status, action) else Some("Job not found")
      ensures jobs == if error == None then old(jobs)[id := Transitioned(old(jobs)[id], actor, action)] else old(jobs)
    {
      if id !in jobs {
        return Some("Job not found");
      }
      var status := jobs[id].status;
      if status in [Running, Completed, Cancelled] {
        return Some("Job status is immutable");
      }
      match action {
      case Approve =>
        if status !in [Queued, Rejected, Failed] {
          return Some("Cannot approve job");
        }
        jobs := jobs[id := jobs[id].(status := Approved, approvedBy := actor)];
      case Reject =>
        if status !in [Queued, Approved, Failed] {
          return Some("Cannot reject job");
        }
        jobs := jobs[id := jobs[id].(status := Rejected)];
      case Cancel =>
        if status !in [Queued, Approved, Failed, Rejected] {
          return Some("Cannot cancel job");
        }
        jobs := jobs[id := jobs[id].(status := Cancelled)];
      }
      return None;
    }

    /** The first, uninterrupted part of an execution: the checks, and the job becomes running. */
    method StartExecution(id: nat, actor: string, artifactsWritten: bool) returns (error: Option<string>)
      modifies this
      ensures error == if id in old(jobs) then StartError(old(jobs)[id], actor, artifactsWritten) else Some("Job not found")
      ensures jobs == if error == None then old(jobs)[id := old(jobs)[id].(status := Running)] else old(jobs)
    {
      if id !in jobs {
        return Some("Job not found");
      }
      var job := jobs[id];
      if job.status != Approved {
        return Some("Job must be approved before execution");
      }
      if job.plan == [] {
        return Some("Job plan is empty");
      }
      if job.requestDryRun != job.dryRun {
        return Some("Job dry_run metadata mismatch detected");
      }
      if job.approvedBy == "" {
        return Some("Missing approver");
      }
      if !job.dryRun {
        if job.approvedBy == job.requestedBy {
          return Some("Two-person rule violation: requester");
        }
        if job.approvedBy == actor {
          return Some("Two-person rule violation: runner");
        }
      }
      if job.bootstrap && !artifactsWritten {
        return Some("artifact generation failed");
      }
      jobs := jobs[id := job.(status := Running)];
      return None;
    }

    /** The last part: the outcome and the step results are stored. */
    method FinishExecution(id: nat, error: Option<string>, results: seq<StepResult>)
      requires id in jobs
      modifies this
      ensures jobs == old(jobs)[id := Ended(old(jobs)[id], error == None, results)]
    {
      jobs := jobs[id := jobs[id].(status := if error == None then Completed else Failed, results := results)];
    }
  }

  function Ended(job: Job, ok: bool, results: seq<StepResult>): Job {
    job.(status := if ok then Completed else Failed, results := results)
  }

  // ---------------------------------------------------------------------------
  // The step loop

  function ResultOf(item: PlanItem, reply: Reply): StepResult {
    StepResult(item.key, reply.code == Some(0), reply.skipped)
  }

  /** The results list the first steps of the plan, in order, all successful. */
  ghost predicate ListsPrefix(results: seq<StepResult>, plan: seq<PlanItem>) {
    |results| <= |plan| && forall i :: 0 <= i < |results| ==> results[i].key == plan[i].key && results[i].ok
  }

  /** The loop over the plan, seen from its own caller; `worlds` is what each step meets. */
  method RunPlan(plan: seq<PlanItem>, dryRun: bool, allowExec: bool, worlds: nat -> World)
    returns (results: seq<StepResult>, error: Option<string>)
    ensures ListsPrefix(results, plan)
    ensures error == None ==> |results| == |plan|
    ensures error.Some? ==> |results| < |plan|
    ensures results != [] ==> dryRun || allowExec
    ensures forall i :: 0 <= i < |results| ==> Succeeds(plan[i], dryRun, worlds(i)) && results[i].skipped == dryRun
    ensures error.Some? ==> !(dryRun || allowExec) || !Succeeds(plan[|results|], dryRun, worlds(|results|))
    ensures error.Some? && (dryRun || allowExec) ==> RunProvisionStep(plan[|results|], dryRun, worlds(|results|)) == Err(error.value)
  {
    results := [];
    for i := 0 to |plan|
      invariant |results| == i && ListsPrefix(results, plan)
      invariant results != [] ==> dryRun || allowExec
      invariant forall k :: 0 <= k < i ==> Succeeds(plan[k], dryRun, worlds(k)) && results[k].skipped == dryRun
    {
      if !dryRun && !allowExec {
        return results, Some("Execution disabled");
      }
      var outcome := RunProvisionStep(plan[i], dryRun, worlds(i));
      StepsSucceedExactly(plan[i], dryRun, worlds(i));
      if outcome.Err? {
        return results, Some(outcome.error);
      }
      results := results + [ResultOf(plan[i], outcome.value)];
    }
    error := None;
  }

  // ---------------------------------------------------------------------------
  // The system

  /**
    `results` are those of the steps done so far and `worlds` what each of them met; an execution that is not active
    has stored its outcome.
    */
  datatype Execution = Execution(job: nat, results: seq<StepResult>, worlds: seq<World>, active: bool)

  datatype Event =
    | Created(job: nat, who: string)
    | WasApproved(job: nat, who: string)
    | WasRejected(job: nat)
    | WasCancelled(job: nat)
    | Started(job: nat, who: string, live: bool)
    | Finished(job: nat, ok: bool)

  datatype System = System(nextId: nat, jobs: map<nat, Job>, executions: seq<Execution>, log: seq<Event>)

  datatype Step =
    | Create(bootstrap: bool, dryRun: bool, requestDryRun: bool, who: string, plan: seq<PlanItem>)
    | Transition(job: nat, actor: string, action: Action)
    | Execute(job: nat, actor: string, artifactsWritten: bool, allowExec: bool)
    | RunStep(execution: nat, world: World)

  const EMPTY := System(0, map[], [], [])

  predicate Possible(s: System, step: Step) {
    match step
    case Create(_, _, _, _, _) => true
    case Transition(id, _, action) => id in s.jobs && TransitionError(s.jobs[id].status, action) == None
    case Execute(id, actor, artifactsWritten, _) => id in s.jobs && StartError(s.jobs[id], actor, artifactsWritten) == None
    case RunStep(e, _) =>
      && e < |s.executions| && s.executions[e].active && s.executions[e].job in s.jobs
      && |s.executions[e].results| < |s.jobs[s.executions[e].job].plan|
  }

  function EventOf(id: nat, actor: string, action: Action): Event {
    match action
    case Approve => WasApproved(id, actor)
    case Reject => WasRejected(id)
    case Cancel => WasCancelled(id)
  }

  function Record(s: System, id: nat, job: Job, e: Event): System {
    s.(jobs := s.jobs[id := job], log := s.log + [e])
  }

  function End(s: System, e: nat, ok: bool, results: seq<StepResult>, worlds: seq<World>): System
    requires e < |s.executions| && s.executions[e].job in s.jobs
  {
    var id := s.executions[e].job;
    s.(jobs := s.jobs[id := Ended(s.jobs[id], ok, results)],
       executions := s.executions[e := Execution(id, results, worlds, false)],
       log := s.log + [Finished(id, ok)])
  }

  function Begun(s: System, id: nat, actor: string): System
    requires id in s.jobs
  {
    s.(jobs := s.jobs[id := s.jobs[id].(status := Running)],
       executions := s.executions + [Execution(id, [], [], true)],
       log := s.log + [Started(id, actor, !s.jobs[id].dryRun)])
  }

  function AfterStep(s: System, e: nat, world: World): System
    requires Possible(s, RunStep(e, world))
  {
    var x := s.executions[e];
    var job := s.jobs[x.job];
    var item := job.plan[|x.results|];
    match RunProvisionStep(item, job.dryRun, world)
    case Err(_) => End(s, e, false, x.results, x.worlds)
    case Ok(reply) =>
      var results, worlds := x.results + [ResultOf(item, reply)], x.worlds + [world];
      if |results| == |job.plan| then End(s, e, true, results, worlds)
      else s.(executions := s.executions[e := x.(results := results, worlds := worlds)])
  }

  /** A live job whose execution is disabled fails before its first step, without an await in between. */
  function Next(s: System, step: Step): System
    requires Possible(s, step)
  {
    match step
    case Create(bootstrap, dryRun, requestDryRun, who, plan) =>
      Record(s.(nextId := s.nextId + 1), s.nextId, Job(Queued, bootstrap, dryRun, requestDryRun, who, "", plan, []), Created(s.nextId, who))
    case Transition(id, actor, action) =>
      Record(s, id, Transitioned(s.jobs[id], actor, action), EventOf(id, actor, action))
    case Execute(id, actor, _, allowExec) =>
      var s' := Begun(s, id, actor);
      if s.jobs[id].dryRun || allowExec then s' else End(s', |s.executions|, false, [], [])
    case RunStep(e, world) => AfterStep(s, e, world)
  }

  function ExecFrom(s: System, steps: seq<Step>): System
    decreases |steps|
  {
    if steps == [] then s
    else ExecFrom(if Possible(s, steps[0]) then Next(s, steps[0]) else s, steps[1..])
  }

  /** The state after a run; a step that cannot happen changes nothing. */
  function Exec(steps: seq<Step>): System {
    ExecFrom(EMPTY, steps)
  }

  // ---------------------------------------------------------------------------
  // What every run keeps

  predicate Busy(s: System, e: int, id: nat) {
    0 <= e < |s.executions| && s.executions[e].active && s.executions[e].job == id
  }

  ghost predicate OneExecution(s: System) {
    && (forall id <- s.jobs :: id < s.nextId)
    && (forall e, id :: Busy(s, e, id) ==> id in s.jobs && s.jobs[id].status == Running)
    && (forall id <- s.jobs :: s.jobs[id].status == Running ==> exists e :: Busy(s, e, id))
    && (forall e, f, id :: Busy(s, e, id) && Busy(s, f, id) ==> e == f)
  }

  ghost predicate ResultsKept(s: System) {
    && (forall e, id :: Busy(s, e, id) && id in s.jobs ==>
          ListsPrefix(s.executions[e].results, s.jobs[id].plan) && |s.executions[e].results| < |s.jobs[id].plan|)
    && (forall id <- s.jobs :: s.jobs[id].status == Completed ==>
          ListsPrefix(s.jobs[id].results, s.jobs[id].plan) && |s.jobs[id].results| == |s.jobs[id].plan|)
    && (forall id <- s.jobs :: s.jobs[id].status == Failed ==>
          ListsPrefix(s.jobs[id].results, s.jobs[id].plan) && |s.jobs[id].results| < |s.jobs[id].plan|)
  }

  /** The status, the requester and the latest approver of a job, told from the log alone. */
  function StatusIn(log: seq<Event>, id: nat): Status {
    if log == [] then Queued
    else
      var e := log[|log| - 1];
      if e.job != id then StatusIn(log[..|log| - 1], id)
      else
        match e
        case Created(_, _) => Queued
        case WasApproved(_, _) => Approved
        case WasRejected(_) => Rejected
        case WasCancelled(_) => Cancelled
        case Started(_, _, _) => Running
        case Finished(_, ok) => if ok then Completed else Failed
  }

  function RequesterIn(log: seq<Event>, id: nat): string {
    if log == [] then ""
    else
      var e := log[|log| - 1];
      if e.job == id && e.Created? then e.who else RequesterIn(log[..|log| - 1], id)
  }

  function ApproverIn(log: seq<Event>, id: nat): string {
    if log == [] then ""
    else
      var e := log[|log| - 1];
      if e.job == id && e.WasApproved? then e.who
      else if e.job == id && e.Created? then ""
      else ApproverIn(log[..|log| - 1], id)
  }

  ghost predicate LogTells(s: System) {
    forall id <- s.jobs ::
      && s.jobs[id].status == StatusIn(s.log, id)
      && s.jobs[id].requestedBy == RequesterIn(s.log, id)
      && s.jobs[id].approvedBy == ApproverIn(s.log, id)
  }

  /** The start at position `k` of the log follows an approval with nothing in between that concerns the job. */
  ghost predicate ProperlyApproved(log: seq<Event>, k: nat)
    requires k < |log| && log[k].Started?
  {
    exists a :: 0 <= a < k && ApprovedFor(log, a, k)
  }

  ghost predicate ApprovedFor(log: seq<Event>, a: nat, k: nat)
    requires a < k < |log| && log[k].Started?
  {
    && log[a].WasApproved? && log[a].job == log[k].job && log[a].who != ""
    && (forall i :: a < i < k ==> log[i].job != log[k].job)
    && (log[k].live ==> log[a].who != log[k].who && log[a].who != RequesterIn(log[..k], log[k].job))
  }

  ghost predicate StartsApproved(log: seq<Event>) {
    forall k :: 0 <= k < |log| && log[k].Started? ==> ProperlyApproved(log, k)
  }

  lemma LogAppend(log: seq<Event>, e: Event, id: nat)
    ensures e.job != id ==>
      && StatusIn(log + [e], id) == StatusIn(log, id)
      && RequesterIn(log + [e], id) == RequesterIn(log, id)
      && ApproverIn(log + [e], id) == ApproverIn(log, id)
    ensures e.job == id ==>
      && StatusIn(log + [e], id) == StatusIn([e], id)
      && RequesterIn(log + [e], id) == (if e.Created? then e.who else RequesterIn(log, id))
      && ApproverIn(log + [e], id) == (if e.WasApproved? then e.who else if e.Created? then "" else ApproverIn(log, id))
  {
    assert (log + [e])[..|log|] == log;
  }

  /** The approval at position `a` is the latest event of the job. */
  ghost predicate LastlyApproved(log: seq<Event>, id: nat, a: nat)
    requires a < |log|
  {
    && log[a].WasApproved? && log[a].job == id && log[a].who == ApproverIn(log, id)
    && forall i :: a < i < |log| ==> log[i].job != id
  }

  lemma {:induction false} ApprovedStatus(log: seq<Event>, id: nat)
    requires StatusIn(log, id) == Approved
    ensures exists a :: 0 <= a < |log| && LastlyApproved(log, id, a)
  {
    var n := |log| - 1;
    if log[n].job == id {
      assert LastlyApproved(log, id, n);
    } else {
      ApprovedStatus(log[..n], id);
      var a :| 0 <= a < n && LastlyApproved(log[..n], id, a);
      assert LastlyApproved(log, id, a);
    }
  }

  ghost predicate Inv(s: System) {
    OneExecution(s) && ResultsKept(s) && LogTells(s) && StartsApproved(s.log)
  }

  lemma StartsApprovedAppend(log: seq<Event>, e: Event)
    requires StartsApproved(log)
    requires e.Started? ==> StatusIn(log, e.job) == Approved && ApproverIn(log, e.job) != ""
    requires e.Started? && e.live ==> ApproverIn(log, e.job) != e.who && ApproverIn(log, e.job) != RequesterIn(log, e.job)
    ensures StartsApproved(log + [e])
  {
    var log' := log + [e];
    forall k | 0 <= k < |log'| && log'[k].Started?
      ensures ProperlyApproved(log', k)
    {
      if k < |log| {
        var a :| 0 <= a < k && ApprovedFor(log, a, k);
        assert log'[..k] == log[..k];
        assert ApprovedFor(log', a, k);
      } else {
        ApprovedStatus(log, e.job);
        var a :| 0 <= a < |log| && LastlyApproved(log, e.job, a);
        assert log'[..k] == log;
        assert ApprovedFor(log', a, k);
      }
    }
  }

  lemma LogTellsAppend(s: System, s': System, e: Event)
    requires LogTells(s) && s'.log == s.log + [e]
    requires s'.jobs.Keys == s.jobs.Keys + {e.job}
    requires forall id <- s.jobs :: id != e.job ==> s'.jobs[id] == s.jobs[id]
    requires s'.jobs[e.job].status == StatusIn([e], e.job)
    requires e.Created? ==> s'.jobs[e.job].requestedBy == e.who && s'.jobs[e.job].approvedBy == ""
    requires !e.Created? ==> e.job in s.jobs && s'.jobs[e.job].requestedBy == s.jobs[e.job].requestedBy
    requires !e.Created? ==> s'.jobs[e.job].approvedBy == if e.WasApproved? then e.who else s.jobs[e.job].approvedBy
    ensures LogTells(s')
  {
    forall id <- s'.jobs {
      LogAppend(s.log, e, id);
    }
  }

  lemma OneExecutionBegun(s: System, id: nat, actor: string)
    requires OneExecution(s) && id in s.jobs && s.jobs[id].status == Approved
    ensures OneExecution(Begun(s, id, actor))
    ensures Busy(Begun(s, id, actor), |s.executions|, id)
  {
    var s' := Begun(s, id, actor);
    assert forall f, i :: Busy(s', f, i) ==> Busy(s, f, i) || (f == |s.executions| && i == id);
    forall i <- s'.jobs | s'.jobs[i].status == Running
      ensures exists f :: Busy(s', f, i)
    {
      if i == id {
        assert Busy(s', |s.executions|, id);
      } else {
        var f :| Busy(s, f, i);
        assert Busy(s', f, i);
      }
    }
  }

  lemma ResultsBegun(s: System, id: nat, actor: string)
    requires ResultsKept(s) && id in s.jobs && s.jobs[id].plan != []
    ensures ResultsKept(Begun(s, id, actor))
  {
    var s' := Begun(s, id, actor);
    assert forall f, i :: Busy(s', f, i) ==> Busy(s, f, i) || (f == |s.executions| && i == id);
  }

  lemma InvBegun(s: System, id: nat, actor: string, artifactsWritten: bool)
    requires Inv(s) && id in s.jobs && StartError(s.jobs[id], actor, artifactsWritten) == None
    ensures Inv(Begun(s, id, actor))
    ensures Busy(Begun(s, id, actor), |s.executions|, id)
  {
    hide OneExecution, ResultsKept, StartsApproved;
    var e := Started(id, actor, !s.jobs[id].dryRun);
    OneExecutionBegun(s, id, actor);
    ResultsBegun(s, id, actor);
    assert s.jobs[id].status == StatusIn(s.log, id) && s.jobs[id].approvedBy == ApproverIn(s.log, id) &&
      s.jobs[id].requestedBy == RequesterIn(s.log, id);
    hide LogTells;
    StartsApprovedAppend(s.log, e);
    LogTellsAppend(s, Begun(s, id, actor), e);
  }

  lemma OneExecutionEnd(s: System, e: nat, ok: bool, results: seq<StepResult>, worlds: seq<World>)
    requires OneExecution(s) && e < |s.executions| && Busy(s, e, s.executions[e].job)
    ensures OneExecution(End(s, e, ok, results, worlds))
  {
    var s' := End(s, e, ok, results, worlds);
    assert forall f, i :: Busy(s', f, i) ==> Busy(s, f, i) && f != e;
    forall i <- s'.jobs | s'.jobs[i].status == Running
      ensures exists f :: Busy(s', f, i)
    {
      var f :| Busy(s, f, i);
      assert Busy(s', f, i);
    }
  }

  lemma ResultsEnd(s: System, e: nat, ok: bool, results: seq<StepResult>, worlds: seq<World>)
    requires ResultsKept(s) && e < |s.executions| && s.executions[e].job in s.jobs
    requires var plan := s.jobs[s.executions[e].job].plan;
      ListsPrefix(results, plan) && (ok <==> |results| == |plan|)
    ensures ResultsKept(End(s, e, ok, results, worlds))
  {
    var s' := End(s, e, ok, results, worlds);
    assert forall f, i :: Busy(s', f, i) ==> Busy(s, f, i);
  }

  lemma InvEnd(s: System, e: nat, ok: bool, results: seq<StepResult>, worlds: seq<World>)
    requires Inv(s) && e < |s.executions| && Busy(s, e, s.executions[e].job)
    requires s.executions[e].job in s.jobs
    requires var plan := s.jobs[s.executions[e].job].plan;
      ListsPrefix(results, plan) && (ok <==> |results| == |plan|)
    ensures Inv(End(s, e, ok, results, worlds))
  {
    hide OneExecution, ResultsKept, StartsApproved, LogTells;
    var id := s.executions[e].job;
    OneExecutionEnd(s, e, ok, results, worlds);
    ResultsEnd(s, e, ok, results, worlds);
    StartsApprovedAppend(s.log, Finished(id, ok));
    LogTellsAppend(s, End(s, e, ok, results, worlds), Finished(id, ok));
  }

  /** A step of an execution touches no job but its own, and that one only to store the outcome. */
  lemma AfterStepEffect(s: System, e: nat, world: World)
    requires Possible(s, RunStep(e, world))
    ensures var s', id := AfterStep(s, e, world), s.executions[e].job;
      || s'.jobs == s.jobs
      || exists ok, results :: s'.jobs == s.jobs[id := Ended(s.jobs[id], ok, results)] && !s'.executions[e].active
  {
  }

  lemma InvAfterStep(s: System, e: nat, world: World)
    requires Inv(s) && Possible(s, RunStep(e, world))
    ensures Inv(AfterStep(s, e, world))
  {
    var x := s.executions[e];
    var job := s.jobs[x.job];
    var item := job.plan[|x.results|];
    assert Busy(s, e, x.job);
    match RunProvisionStep(item, job.dryRun, world)
    case Err(_) =>
      InvEnd(s, e, false, x.results, x.worlds);
    case Ok(reply) =>
      StepsSucceedExactly(item, job.dryRun, world);
      var results := x.results + [ResultOf(item, reply)];
      if |results| == |job.plan| {
        InvEnd(s, e, true, results, x.worlds + [world]);
      } else {
        var s' := AfterStep(s, e, world);
        assert forall f, i :: Busy(s', f, i) <==> Busy(s, f, i);
      }
  }

  lemma ExecutionsAcrossRecord(s: System, id: nat, job: Job, e: Event)
    requires OneExecution(s) && ResultsKept(s)
    requires id < s.nextId && (id in s.jobs ==> s.jobs[id].status != Running)
    requires job.status in [Queued, Approved, Rejected, Cancelled]
    ensures OneExecution(Record(s, id, job, e)) && ResultsKept(Record(s, id, job, e))
  {
    var s' := Record(s, id, job, e);
    assert forall f, i :: Busy(s', f, i) <==> Busy(s, f, i);
  }

  lemma InvRecord(s: System, id: nat, job: Job, e: Event)
    requires Inv(s) && e.job == id && job.status == StatusIn([e], id)
    requires id < s.nextId && (id in s.jobs ==> s.jobs[id].status != Running)
    requires e.Created? || e.WasApproved? || e.WasRejected? || e.WasCancelled?
    requires e.Created? ==> job.requestedBy == e.who && job.approvedBy == ""
    requires !e.Created? ==> id in s.jobs && job.requestedBy == s.jobs[id].requestedBy
    requires !e.Created? ==> job.approvedBy == if e.WasApproved? then e.who else s.jobs[id].approvedBy
    ensures Inv(Record(s, id, job, e))
  {
    hide OneExecution, ResultsKept, LogTells, StartsApproved;
    ExecutionsAcrossRecord(s, id, job, e);
    StartsApprovedAppend(s.log, e);
    LogTellsAppend(s, Record(s, id, job, e), e);
  }

  lemma InvCreate(s: System, step: Step)
    requires Inv(s) && step.Create?
    ensures Inv(Next(s, step))
  {
    var s1 := s.(nextId := s.nextId + 1);
    assert forall f, i :: Busy(s1, f, i) <==> Busy(s, f, i);
    var job := Job(Queued, step.bootstrap, step.dryRun, step.requestDryRun, step.who, "", step.plan, []);
    InvRecord(s1, s.nextId, job, Created(s.nextId, step.who));
  }

  lemma InvNext(s: System, step: Step)
    requires Inv(s) && Possible(s, step)
    ensures Inv(Next(s, step))
  {
    match step
    case Execute(id, actor, artifactsWritten, allowExec) =>
      InvBegun(s, id, actor, artifactsWritten);
      if !(s.jobs[id].dryRun || allowExec) {
        InvEnd(Begun(s, id, actor), |s.executions|, false, [], []);
      }
    case RunStep(e, world) => InvAfterStep(s, e, world);
    case Create(_, _, _, _, _) => InvCreate(s, step);
    case Transition(id, actor, action) =>
      InvRecord(s, id, Transitioned(s.jobs[id], actor, action), EventOf(id, actor, action));
  }

  lemma {:induction false} InvExecFrom(s: System, steps: seq<Step>)
    requires Inv(s)
    ensures Inv(ExecFrom(s, steps))
    decreases |steps|
  {
    if steps != [] {
      if Possible(s, steps[0]) {
        InvNext(s, steps[0]);
      }
      InvExecFrom(if Possible(s, steps[0]) then Next(s, steps[0]) else s, steps[1..]);
    }
  }

  // ---------------------------------------------------------------------------
  // What the steps of an execution met

  /** Every step so far succeeded in what it met, and its result says so. */
  ghost predicate RanWell(x: Execution, job: Job) {
    && |x.worlds| == |x.results| <= |job.plan|
    && forall i :: 0 <= i < |x.results| ==>
         Succeeds(job.plan[i], job.dryRun, x.worlds[i]) && x.results[i] == StepResult(job.plan[i].key, true, job.dryRun)
  }

  /** The outcome of the job is that of execution `e`. */
  predicate StoredBy(s: System, e: int, id: nat)
    requires id in s.jobs
  {
    0 <= e < |s.executions| && s.executions[e].job == id && !s.executions[e].active && s.executions[e].results == s.jobs[id].results
  }

  ghost predicate WorldsKept(s: System) {
    && (forall e :: 0 <= e < |s.executions| ==> s.executions[e].job in s.jobs && RanWell(s.executions[e], s.jobs[s.executions[e].job]))
    && (forall id <- s.jobs :: s.jobs[id].status in [Completed, Failed] ==> exists e :: StoredBy(s, e, id))
  }

  /** A change of jobs that keeps plans and modes, where no job becomes completed or failed. */
  lemma WorldsAcrossJobs(s: System, s': System)
    requires WorldsKept(s)
    requires |s.executions| <= |s'.executions| && s'.executions[..|s.executions|] == s.executions
    requires forall e :: |s.executions| <= e < |s'.executions| ==> s'.executions[e].job in s'.jobs && s'.executions[e].results == [] && s'.executions[e].worlds == []
    requires forall id <- s.jobs :: id in s'.jobs && s'.jobs[id].plan == s.jobs[id].plan && s'.jobs[id].dryRun == s.jobs[id].dryRun
    requires forall id <- s'.jobs :: s'.jobs[id].status in [Completed, Failed] ==> id in s.jobs && s'.jobs[id] == s.jobs[id]
    ensures WorldsKept(s')
  {
    assert forall e :: 0 <= e < |s.executions| ==> s'.executions[e] == s'.executions[..|s.executions|][e] == s.executions[e];
    forall id <- s'.jobs | s'.jobs[id].status in [Completed, Failed]
      ensures exists e :: StoredBy(s', e, id)
    {
      var e :| StoredBy(s, e, id);
      assert StoredBy(s', e, id);
    }
  }

  lemma WorldsEnd(s: System, e: nat, ok: bool, results: seq<StepResult>, worlds: seq<World>)
    requires WorldsKept(s) && OneExecution(s) && e < |s.executions| && Busy(s, e, s.executions[e].job)
    requires s.executions[e].job in s.jobs && RanWell(Execution(s.executions[e].job, results, worlds, false), s.jobs[s.executions[e].job])
    ensures WorldsKept(End(s, e, ok, results, worlds))
  {
    var s', own := End(s, e, ok, results, worlds), s.executions[e].job;
    assert StoredBy(s', e, own);
    forall id <- s'.jobs | s'.jobs[id].status in [Completed, Failed] && id != own
      ensures exists f :: StoredBy(s', f, id)
    {
      var f :| StoredBy(s, f, id);
      assert StoredBy(s', f, id);
    }
  }

  lemma WorldsAfterStep(s: System, e: nat, world: World)
    requires WorldsKept(s) && OneExecution(s) && Possible(s, RunStep(e, world))
    ensures WorldsKept(AfterStep(s, e, world))
  {
    var x := s.executions[e];
    var job := s.jobs[x.job];
    var item := job.plan[|x.results|];
    assert Busy(s, e, x.job);
    StepsSucceedExactly(item, job.dryRun, world);
    if Succeeds(item, job.dryRun, world) {
      hide Succeeds;
      var results, worlds := x.results + [StepResult(item.key, true, job.dryRun)], x.worlds + [world];
      assert RanWell(x.(results := results, worlds := worlds), job);
      if |results| == |job.plan| {
        WorldsEnd(s, e, true, results, worlds);
      } else {
        var s' := AfterStep(s, e, world);
        forall id <- s'.jobs | s'.jobs[id].status in [Completed, Failed]
          ensures exists f :: StoredBy(s', f, id)
        {
          var f :| StoredBy(s, f, id);
          assert StoredBy(s', f, id);
        }
      }
    } else {
      WorldsEnd(s, e, false, x.results, x.worlds);
    }
  }

  lemma WorldsExecute(s: System, id: nat, actor: string, allowExec: bool)
    requires WorldsKept(s) && OneExecution(s) && id in s.jobs && s.jobs[id].status == Approved
    ensures WorldsKept(Begun(s, id, actor))
    ensures WorldsKept(End(Begun(s, id, actor), |s.executions|, false, [], []))
  {
    var s' := Begun(s, id, actor);
    WorldsAcrossJobs(s, s');
    OneExecutionBegun(s, id, actor);
    hide WorldsKept, OneExecution;
    WorldsEnd(s', |s.executions|, false, [], []);
  }

  lemma WorldsTransition(s: System, id: nat, actor: string, action: Action)
    requires WorldsKept(s) && id in s.jobs
    ensures WorldsKept(Record(s, id, Transitioned(s.jobs[id], actor, action), EventOf(id, actor, action)))
  {
    hide WorldsKept;
    WorldsAcrossJobs(s, Record(s, id, Transitioned(s.jobs[id], actor, action), EventOf(id, actor, action)));
  }

  lemma WorldsNext(s: System, step: Step)
    requires WorldsKept(s) && OneExecution(s) && Possible(s, step)
    ensures WorldsKept(Next(s, step))
  {
    assert forall id <- s.jobs :: id < s.nextId;
    hide WorldsKept, OneExecution, AfterStep, TransitionError, Transitioned, EventOf;
    match step
    case Execute(id, actor, artifactsWritten, allowExec) => WorldsExecute(s, id, actor, allowExec);
    case RunStep(e, world) => WorldsAfterStep(s, e, world);
    case Create(_, _, _, _, _) => WorldsAcrossJobs(s, Next(s, step));
    case Transition(id, actor, action) => WorldsTransition(s, id, actor, action);
  }

  lemma {:induction false} WorldsExecFrom(s: System, steps: seq<Step>)
    requires Inv(s) && WorldsKept(s)
    ensures WorldsKept(ExecFrom(s, steps))
    decreases |steps|
  {
    if steps != [] {
      if Possible(s, steps[0]) {
        InvNext(s, steps[0]);
        WorldsNext(s, steps[0]);
      }
      hide Inv, WorldsKept, Next;
      WorldsExecFrom(if Possible(s, steps[0]) then Next(s, steps[0]) else s, steps[1..]);
    }
  }

  // ---------------------------------------------------------------------------
  // The main results

  /**
    In every run, the outcome of a completed or failed job is that of one of its executions, each listed step of which
    succeeded in what it met; in a live job that was a process that ended with exit code 0.
    */
  lemma ListedStepsSucceeded(steps: seq<Step>, id: nat)
    requires id in Exec(steps).jobs && Exec(steps).jobs[id].status in [Completed, Failed]
    ensures var s := Exec(steps);
      var job := s.jobs[id];
      exists e :: StoredBy(s, e, id) && |s.executions[e].worlds| == |job.results| <= |job.plan|
        && forall i :: 0 <= i < |job.results| ==>
             && Succeeds(job.plan[i], job.dryRun, s.executions[e].worlds[i])
             && job.results[i] == StepResult(job.plan[i].key, true, job.dryRun)
             && (!job.dryRun ==> s.executions[e].worlds[i].end.Closed? && s.executions[e].worlds[i].end.code == Some(0))
  {
    WorldsExecFrom(EMPTY, steps);
    var s := Exec(steps);
    var e :| StoredBy(s, e, id);
    assert RanWell(s.executions[e], s.jobs[id]);
  }

  /** A step that succeeds adds its result, and completes the job if it was the last; one that does not fails the job. */
  lemma StepDecides(s: System, e: nat, world: World)
    requires Possible(s, RunStep(e, world))
    ensures
      var s', x := Next(s, RunStep(e, world)), s.executions[e];
      var job, k := s.jobs[x.job], |x.results|;
      var results := if Succeeds(job.plan[k], job.dryRun, world) then x.results + [StepResult(job.plan[k].key, true, job.dryRun)] else x.results;
      && s'.executions[e].results == results
      && (s'.executions[e].active <==> k < |results| < |job.plan|)
      && s'.jobs == if k < |results| < |job.plan| then s.jobs
                    else s.jobs[x.job := job.(status := if k < |results| then Completed else Failed, results := results)]
  {
    var x := s.executions[e];
    StepsSucceedExactly(s.jobs[x.job].plan[|x.results|], s.jobs[x.job].dryRun, world);
    hide Succeeds, RunProvisionStep;
  }

  /**
    In every run, each execution start directly follows, among the events of its job, an approval by a named
    actor; for a live job that actor is neither the requester nor the runner.
    */
  lemma TwoPersonRule(steps: seq<Step>, k: nat)
    requires k < |Exec(steps).log| && Exec(steps).log[k].Started?
    ensures ProperlyApproved(Exec(steps).log, k)
  {
    InvExecFrom(EMPTY, steps);
  }

  /** An approval serves one start: between two starts of a job lies the approval of the second. */
  lemma StartsNeedFreshApproval(steps: seq<Step>, k: nat, m: nat)
    requires k < m < |Exec(steps).log| && Exec(steps).log[k].Started? && Exec(steps).log[m].Started?
    requires Exec(steps).log[k].job == Exec(steps).log[m].job
    ensures exists a :: k < a < m && ApprovedFor(Exec(steps).log, a, m)
  {
    TwoPersonRule(steps, m);
    var a :| 0 <= a < m && ApprovedFor(Exec(steps).log, a, m);
    assert k < a;
  }

  /** However callers interleave, a job runs exactly while one execution of it is in progress, and never two are. */
  lemma OneExecutionPerJob(steps: seq<Step>, id: nat)
    ensures var s := Exec(steps);
      && (id in s.jobs && s.jobs[id].status == Running <==> exists e :: Busy(s, e, id))
      && (forall e, f :: Busy(s, e, id) && Busy(s, f, id) ==> e == f)
  {
    InvExecFrom(EMPTY, steps);
  }

  /** A running job stops running only through a step of its own execution, which stores that execution's outcome. */
  lemma RunningEndsByItself(steps: seq<Step>, step: Step, id: nat)
    requires var s := Exec(steps); Possible(s, step) && id in s.jobs && s.jobs[id].status == Running
    ensures var s, s' := Exec(steps), Next(Exec(steps), step);
      && id in s'.jobs
      && (s'.jobs[id] != s.jobs[id] ==>
            && step.RunStep? && Busy(s, step.execution, id) && !Busy(s', step.execution, id)
            && s'.jobs[id].status in [Completed, Failed])
  {
    InvExecFrom(EMPTY, steps);
    RunningStep(Exec(steps), step, id);
  }

  lemma RunningStep(s: System, step: Step, id: nat)
    requires OneExecution(s) && Possible(s, step) && id in s.jobs && s.jobs[id].status == Running
    ensures var s' := Next(s, step);
      && id in s'.jobs
      && (s'.jobs[id] != s.jobs[id] ==>
            && step.RunStep? && Busy(s, step.execution, id) && !Busy(s', step.execution, id)
            && s'.jobs[id].status in [Completed, Failed])
  {
    if step.RunStep? {
      hide AfterStep;
      AfterStepEffect(s, step.execution, step.world);
    }
  }

  lemma FinalStep(s: System, step: Step, id: nat)
    requires OneExecution(s) && Possible(s, step) && id in s.jobs && s.jobs[id].status in [Completed, Cancelled]
    ensures id in Next(s, step).jobs && Next(s, step).jobs[id] == s.jobs[id]
  {
    if step.RunStep? {
      hide AfterStep;
      AfterStepEffect(s, step.execution, step.world);
      assert Busy(s, step.execution, s.executions[step.execution].job);
    }
  }

  lemma {:induction false} FinalFrom(s: System, more: seq<Step>, id: nat)
    requires Inv(s) && id in s.jobs && s.jobs[id].status in [Completed, Cancelled]
    ensures id in ExecFrom(s, more).jobs && ExecFrom(s, more).jobs[id] == s.jobs[id]
    decreases |more|
  {
    if more != [] {
      if Possible(s, more[0]) {
        InvNext(s, more[0]);
        FinalStep(s, more[0], id);
        hide Inv, Next;
        FinalFrom(Next(s, more[0]), more[1..], id);
      } else {
        FinalFrom(s, more[1..], id);
      }
    }
  }

  /** A completed or cancelled job never changes again, whatever happens afterwards. */
  lemma CompletedAndCancelledAreFinal(steps: seq<Step>, more: seq<Step>, id: nat)
    requires var s := Exec(steps); id in s.jobs && s.jobs[id].status in [Completed, Cancelled]
    ensures var s := Exec(steps); id in ExecFrom(s, more).jobs && ExecFrom(s, more).jobs[id] == s.jobs[id]
  {
    InvExecFrom(EMPTY, steps);
    FinalFrom(Exec(steps), more, id);
  }

  /** A completed job lists its whole plan in order, all successful; a failed one a strict prefix, all successful. */
  lemma ResultsListThePlan(steps: seq<Step>, id: nat)
    requires id in Exec(steps).jobs
    ensures var job := Exec(steps).jobs[id];
      && (job.status == Completed ==> ListsPrefix(job.results, job.plan) && |job.results| == |job.plan|)
      && (job.status == Failed ==> ListsPrefix(job.results, job.plan) && |job.results| < |job.plan|)
  {
    InvExecFrom(EMPTY, steps);
  }
}
