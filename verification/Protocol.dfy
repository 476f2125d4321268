/**
 * Runners, the network and the queue together (src/runner/worker.rs, src/runner/client.rs, src/ci/db.rs).
 *
 * Claims and finish reports are retried under a fixed identity, so the network may lose, delay and repeat
 * them: a sent message stays deliverable for ever. Job creation and job status are sent once: a call
 * either returns to the runner, or fails there and may still arrive once, at any later time.
 */
module Protocol {
  import opened Wrappers
  import Config
  import Queue
  import QueueRuns
  import Scheduler
  import Topo

  type Db = Queue.Db

  /** How far the closure of a job has come. */
  datatype Phase = Begun | Announced | Recorded(success: bool) | Broken

  datatype Execution =
    | Preparing
    | Working(config: Config.PipelineConfig, base: nat, trace: seq<Scheduler.Event>, phases: map<nat, Phase>)
    | Reporting

  /** A runner process: it polls under one request, or runs a pipeline and will poll under a new request. */
  datatype Process =
    | Polling(request: nat)
    | Executing(pipeline: nat, request: nat, run: Execution)

  datatype Answer = Answer(worker: nat, request: nat, pipeline: Option<nat>)

  datatype Report = Report(pipeline: nat, worker: nat, success: bool)

  datatype Stray =
    | StrayCreate(pipeline: nat, worker: nat, config: Config.PipelineConfig)
    | StrayStatus(pipeline: nat, job: nat, worker: nat, status: Queue.JobStatus)

  /** Worker `worker` began to execute a pipeline it was given under `request`. */
  datatype Execute = Execute(pipeline: nat, worker: nat, request: nat)

  datatype World = World(
    db: Db, runners: map<nat, Process>, issued: set<nat>,
    claims: set<(nat, nat)>, answers: set<Answer>, reports: set<Report>, strays: seq<Stray>,
    begun: seq<Execute>)

  const INITIAL := World(QueueRuns.EMPTY, map[], {}, {}, {}, {}, [], [])

  datatype Action =
    | Environment(step: QueueRuns.Step)
    | Restart(worker: nat, newId: nat)
    | SendClaim(worker: nat)
    | DeliverClaim(worker: nat, request: nat, supportsSpec: bool)
    | ReceiveAnswer(worker: nat, pipeline: Option<nat>, newId: nat)
    | CreateJobs(worker: nat, config: Config.PipelineConfig)
    | LoseCreateJobs(worker: nat, config: Config.PipelineConfig)
    | Observe(worker: nat, event: Scheduler.Event)
    | Announce(worker: nat, job: nat)
    | Record(worker: nat, job: nat, success: bool)
    | Break(worker: nat, job: nat, lost: Option<Queue.JobStatus>)
    | EndRun(worker: nat, success: bool)
    | DeliverReport(report: Report)
    | StopReporting(worker: nat)
    | DeliverStray(index: nat)

  /** Steps of the queue that other actions do not already stand for; claims without a request are left out. */
  predicate IsEnvironment(s: QueueRuns.Step) {
    !s.ClaimStep? && !s.FinishStep? && !s.CreateJobsStep? && !s.JobStatusStep?
  }

  predicate IsPolling(m: World, w: nat) {
    w in m.runners && m.runners[w].Polling?
  }

  predicate IsExecuting(m: World, w: nat) {
    w in m.runners && m.runners[w].Executing?
  }

  predicate IsPreparing(m: World, w: nat) {
    IsExecuting(m, w) && m.runners[w].run.Preparing?
  }

  predicate IsWorking(m: World, w: nat) {
    IsExecuting(m, w) && m.runners[w].run.Working?
  }

  /** The closure of job j is under way, and has come that far. */
  predicate InPhase(m: World, w: nat, j: nat, phase: Phase) {
    && IsWorking(m, w) && j in m.runners[w].run.phases && m.runners[w].run.phases[j] == phase
    && j in Scheduler.ViewOf(m.runners[w].run.trace).running
  }

  /** The scheduler's rules, and: a job completed exactly when its closure recorded success. */
  ghost predicate Observable(run: Execution, e: Scheduler.Event)
    requires run.Working?
  {
    && Scheduler.Consistent(run.config)
    && Scheduler.Allowed(run.config, run.config.maxParallelJobs, Scheduler.ViewOf(run.trace), e)
    && (e.Finish? ==> e.job in run.phases
                      && (e.outcome.Completed? <==> run.phases[e.job] == Recorded(true)))
  }

  /** `execute` returned Ok: every job completed; or it returned an error, which it may do at any time. */
  ghost predicate MayEnd(run: Execution, success: bool) {
    success ==> run.Working? && Scheduler.ViewOf(run.trace).done == Topo.Below(|run.config.jobs|)
  }

  ghost predicate Enabled(m: World, a: Action) {
    match a
    case Environment(s) => IsEnvironment(s)
    case Restart(w, newId) => newId !in m.issued
    case SendClaim(w) => IsPolling(m, w)
    case DeliverClaim(w, r, _) => (w, r) in m.claims
    case ReceiveAnswer(w, p, newId) =>
      IsPolling(m, w) && Answer(w, m.runners[w].request, p) in m.answers && newId !in m.issued
    case CreateJobs(w, c) => IsPreparing(m, w) && Scheduler.Consistent(c) && c.jobs != []
    case LoseCreateJobs(w, c) => IsPreparing(m, w)
    case Observe(w, e) => IsWorking(m, w) && Observable(m.runners[w].run, e)
    case Announce(w, j) => InPhase(m, w, j, Begun)
    case Record(w, j, _) => InPhase(m, w, j, Announced)
    case Break(w, j, _) => InPhase(m, w, j, Begun) || InPhase(m, w, j, Announced)
    case EndRun(w, success) => IsExecuting(m, w) && !m.runners[w].run.Reporting? && MayEnd(m.runners[w].run, success)
    case DeliverReport(r) => r in m.reports
    case StopReporting(w) => IsExecuting(m, w) && m.runners[w].run.Reporting?
    case DeliverStray(k) => k < |m.strays|
  }

  function SetRun(m: World, w: nat, run: Execution): World
    requires IsExecuting(m, w)
  {
    m.(runners := m.runners[w := m.runners[w].(run := run)])
  }

  /** The runner gives up on the pipeline and will report a failure. */
  function GiveUp(m: World, w: nat): World
    requires IsExecuting(m, w)
  {
    SetRun(m, w, Reporting).(reports := m.reports + {Report(m.runners[w].pipeline, w, false)})
  }

  /** The checks of the returned job list against the configuration. */
  predicate SameJobList(jobs: seq<Queue.Job>, c: Config.PipelineConfig) {
    && |jobs| == |c.jobs|
    && forall k | 0 <= k < |jobs| :: jobs[k].name == c.jobs[k].name && jobs[k].stage == c.jobs[k].stage
  }

  function DoCreateJobs(m: World, w: nat, c: Config.PipelineConfig): World
    requires IsExecuting(m, w)
  {
    var (db, jobs) := Queue.CreateJobs(m.db, m.runners[w].pipeline, w, c);
    if jobs.Some? && SameJobList(jobs.value, c) then
      SetRun(m, w, Working(c, |m.db.jobs|, [], map[])).(db := db)
    else GiveUp(m, w).(db := db)
  }

  function SetPhase(run: Execution, j: nat, phase: Phase): Execution
    requires run.Working?
  {
    run.(phases := run.phases[j := phase])
  }

  /** One acknowledged or refused status call of the closure of job j. */
  function DoStatus(m: World, w: nat, j: nat, status: Queue.JobStatus, phase: Phase): World
    requires IsWorking(m, w)
  {
    var run := m.runners[w].run;
    if Queue.JobActive(m.db, run.base + j, w) then
      SetRun(m, w, SetPhase(run, j, phase)).(db := Queue.SetJobStatus(m.db, run.base + j, w, status))
    else SetRun(m, w, SetPhase(run, j, Broken))
  }

  function DoObserve(m: World, w: nat, e: Scheduler.Event): World
    requires IsWorking(m, w)
  {
    var run := m.runners[w].run;
    var phases := if e.Start? then run.phases[e.job := Begun] else run.phases;
    SetRun(m, w, run.(trace := run.trace + [e], phases := phases))
  }

  function DoReceive(m: World, w: nat, p: Option<nat>, newId: nat): World
    requires IsPolling(m, w)
  {
    var next := m.(issued := m.issued + {newId});
    if p.Some? then
      next.(runners := m.runners[w := Executing(p.value, newId, Preparing)],
            begun := m.begun + [Execute(p.value, w, m.runners[w].request)])
    else next.(runners := m.runners[w := Polling(newId)])
  }

  function DeliverCall(db: Db, s: Stray): Db {
    match s
    case StrayCreate(p, w, c) => Queue.CreateJobs(db, p, w, c).0
    case StrayStatus(_, j, w, status) => Queue.SetJobStatus(db, j, w, status)
  }

  ghost function Next(m: World, a: Action): World
    requires Enabled(m, a)
  {
    match a
    case Environment(s) => m.(db := QueueRuns.Apply(m.db, s))
    case Restart(w, newId) => m.(runners := m.runners[w := Polling(newId)], issued := m.issued + {newId})
    case SendClaim(w) => m.(claims := m.claims + {(w, m.runners[w].request)})
    case DeliverClaim(w, r, supportsSpec) =>
      var (db, p) := Queue.Claim(m.db, w, Some(r), supportsSpec);
      m.(db := db, answers := m.answers + {Answer(w, r, p)})
    case ReceiveAnswer(w, p, newId) => DoReceive(m, w, p, newId)
    case CreateJobs(w, c) => DoCreateJobs(m, w, c)
    case LoseCreateJobs(w, c) => GiveUp(m, w).(strays := m.strays + [StrayCreate(m.runners[w].pipeline, w, c)])
    case Observe(w, e) => DoObserve(m, w, e)
    case Announce(w, j) => DoStatus(m, w, j, Queue.JobRunning, Announced)
    case Record(w, j, success) =>
      DoStatus(m, w, j, if success then Queue.JobSucceeded else Queue.JobFailed, Recorded(success))
    case Break(w, j, lost) =>
      var run := m.runners[w].run;
      SetRun(m, w, SetPhase(run, j, Broken)).(strays :=
        if lost.Some? then m.strays + [StrayStatus(m.runners[w].pipeline, run.base + j, w, lost.value)] else m.strays)
    case EndRun(w, success) =>
      SetRun(m, w, Reporting).(reports := m.reports + {Report(m.runners[w].pipeline, w, success)})
    case DeliverReport(r) => m.(db := Queue.Finish(m.db, r.pipeline, r.worker, r.success))
    case StopReporting(w) => m.(runners := m.runners[w := Polling(m.runners[w].request)])
    case DeliverStray(k) => m.(db := DeliverCall(m.db, m.strays[k]), strays := m.strays[..k] + m.strays[k+1..])
  }

  /** Every action is enabled when it happens. */
  ghost predicate Possible(m: World, actions: seq<Action>)
    decreases actions
  {
    actions != [] ==> Enabled(m, actions[0]) && Possible(Next(m, actions[0]), actions[1..])
  }

  ghost function Run(m: World, actions: seq<Action>): World
    requires Possible(m, actions)
    decreases actions
  {
    if actions == [] then m else Run(Next(m, actions[0]), actions[1..])
  }

  // ---------- what an action does to the queue ----------

  ghost predicate IsQueueStep(before: Db, after: Db, s: QueueRuns.Step) {
    after == QueueRuns.Apply(before, s)
  }

  predicate ReachesQueue(a: Action) {
    || a.Environment? || a.DeliverClaim? || a.CreateJobs? || a.Announce? || a.Record? || a.DeliverReport?
    || a.DeliverStray?
  }

  lemma OthersKeepQueue(m: World, a: Action)
    requires Enabled(m, a) && !ReachesQueue(a)
    ensures Next(m, a).db == m.db
  {
  }

  lemma StatusIsStep(m: World, w: nat, j: nat, status: Queue.JobStatus, phase: Phase)
    requires IsWorking(m, w)
    ensures IsQueueStep(m.db, DoStatus(m, w, j, status, phase).db,
                        QueueRuns.JobStatusStep(m.runners[w].run.base + j, w, status))
  {
  }

  lemma CreateIsStep(m: World, w: nat, c: Config.PipelineConfig)
    requires IsExecuting(m, w)
    ensures IsQueueStep(m.db, DoCreateJobs(m, w, c).db, QueueRuns.CreateJobsStep(m.runners[w].pipeline, w, c))
  {
  }

  lemma StrayIsStep(db: Db, s: Stray) returns (step: QueueRuns.Step)
    ensures IsQueueStep(db, DeliverCall(db, s), step) && !step.ClaimStep? && !step.FinishStep? && !step.SubmitStep?
  {
    match s
    case StrayCreate(p, w, c) => step := QueueRuns.CreateJobsStep(p, w, c);
    case StrayStatus(_, j, w, status) => step := QueueRuns.JobStatusStep(j, w, status);
  }

  /** The calls a runner waits for. */
  lemma CallIsStep(m: World, a: Action) returns (s: QueueRuns.Step)
    requires Enabled(m, a) && (a.CreateJobs? || a.Announce? || a.Record?)
    ensures IsQueueStep(m.db, Next(m, a).db, s) && !s.ClaimStep? && !s.FinishStep? && !s.SubmitStep?
  {
    if a.CreateJobs? {
      s := QueueRuns.CreateJobsStep(m.runners[a.worker].pipeline, a.worker, a.config);
      CreateIsStep(m, a.worker, a.config);
    } else if a.Announce? {
      s := AnnounceIsStep(m, a.worker, a.job);
    } else {
      s := RecordIsStep(m, a.worker, a.job, a.success);
    }
  }

  lemma AnnounceIsStep(m: World, w: nat, j: nat) returns (s: QueueRuns.Step)
    requires Enabled(m, Announce(w, j))
    ensures IsQueueStep(m.db, Next(m, Announce(w, j)).db, s) && s.JobStatusStep?
  {
    s := QueueRuns.JobStatusStep(m.runners[w].run.base + j, w, Queue.JobRunning);
    StatusIsStep(m, w, j, Queue.JobRunning, Announced);
  }

  lemma RecordIsStep(m: World, w: nat, j: nat, success: bool) returns (s: QueueRuns.Step)
    requires Enabled(m, Record(w, j, success))
    ensures IsQueueStep(m.db, Next(m, Record(w, j, success)).db, s) && s.JobStatusStep?
  {
    var status := if success then Queue.JobSucceeded else Queue.JobFailed;
    s := QueueRuns.JobStatusStep(m.runners[w].run.base + j, w, status);
    StatusIsStep(m, w, j, status, Recorded(success));
  }

  /** The messages that reach the coordinator at some later time. */
  lemma DeliveryIsStep(m: World, a: Action) returns (s: QueueRuns.Step)
    requires Enabled(m, a) && (a.DeliverClaim? || a.DeliverReport? || a.DeliverStray?)
    ensures IsQueueStep(m.db, Next(m, a).db, s) && !s.SubmitStep?
    ensures s.ClaimStep? ==> a.DeliverClaim? && s == QueueRuns.ClaimStep(a.worker, Some(a.request), a.supportsSpec)
    ensures s.FinishStep? ==>
              a.DeliverReport? && s == QueueRuns.FinishStep(a.report.pipeline, a.report.worker, a.report.success)
  {
    if a.DeliverClaim? {
      s := QueueRuns.ClaimStep(a.worker, Some(a.request), a.supportsSpec);
    } else if a.DeliverReport? {
      s := QueueRuns.FinishStep(a.report.pipeline, a.report.worker, a.report.success);
    } else {
      s := StrayIsStep(m.db, m.strays[a.index]);
    }
  }

  /** Every action is one transaction or leaves the database alone. */
  lemma ActionIsQueueStep(m: World, a: Action) returns (s: QueueRuns.Step)
    requires Enabled(m, a)
    ensures IsQueueStep(m.db, Next(m, a).db, s)
    ensures s.SubmitStep? ==> a == Environment(s)
    ensures s.ClaimStep? ==> a.DeliverClaim? && s == QueueRuns.ClaimStep(a.worker, Some(a.request), a.supportsSpec)
    ensures s.FinishStep? ==>
              a.DeliverReport? && s == QueueRuns.FinishStep(a.report.pipeline, a.report.worker, a.report.success)
  {
    if a.Environment? {
      s := a.step;
    } else if a.DeliverClaim? || a.DeliverReport? || a.DeliverStray? {
      s := DeliveryIsStep(m, a);
    } else if a.CreateJobs? || a.Announce? || a.Record? {
      s := CallIsStep(m, a);
    } else {
      OthersKeepQueue(m, a);
      s := QueueRuns.Tick(0);
    }
  }

  // ---------- identities ----------

  /** Row p was assigned to worker w under request r. */
  predicate AssignedTo(db: Db, p: nat, w: nat, r: nat) {
    p < |db.pipelines| && db.pipelines[p].worker == Some(w) && db.pipelines[p].request == Some(r)
    && !db.pipelines[p].status.Queued?
  }

  predicate AnswersOk(m: World) {
    forall x | x in m.answers && x.pipeline.Some? :: AssignedTo(m.db, x.pipeline.value, x.worker, x.request)
  }

  /** Executions began with an assigned pipeline; their requests are used up. */
  predicate BegunOk(m: World) {
    && (forall k | 0 <= k < |m.begun| ::
          && AssignedTo(m.db, m.begun[k].pipeline, m.begun[k].worker, m.begun[k].request)
          && m.begun[k].request in m.issued)
    && (forall i, j | 0 <= i < j < |m.begun| :: m.begun[i].pipeline != m.begun[j].pipeline)
  }

  /** No two runners poll under one request, and none under a request that already began an execution. */
  predicate RequestsOk(m: World) {
    && (forall w | w in m.runners :: m.runners[w].request in m.issued)
    && (forall v, w | v in m.runners && w in m.runners && v != w :: m.runners[v].request != m.runners[w].request)
    && (forall w, k | w in m.runners && 0 <= k < |m.begun| :: m.begun[k].request != m.runners[w].request)
  }

  predicate Identified(m: World) {
    QueueRuns.Sound(m.db) && AnswersOk(m) && BegunOk(m) && RequestsOk(m)
  }

  lemma AssignedStays(before: Db, s: QueueRuns.Step, p: nat, w: nat, r: nat)
    requires AssignedTo(before, p, w, r)
    ensures AssignedTo(QueueRuns.Apply(before, s), p, w, r)
  {
    QueueRuns.StepKeepsRows(before, s);
    assert QueueRuns.RowStep(before.pipelines[p], QueueRuns.Apply(before, s).pipelines[p], before.now);
  }

  lemma ActionKeepsAssigned(m: World, a: Action, p: nat, w: nat, r: nat)
    requires Enabled(m, a) && AssignedTo(m.db, p, w, r)
    ensures AssignedTo(Next(m, a).db, p, w, r)
  {
    var s := ActionIsQueueStep(m, a);
    AssignedStays(m.db, s, p, w, r);
  }

  lemma ActionKeepsAnswers(m: World, a: Action)
    requires Enabled(m, a) && Identified(m)
    ensures AnswersOk(Next(m, a))
  {
    var n := Next(m, a);
    forall x | x in n.answers && x.pipeline.Some?
      ensures AssignedTo(n.db, x.pipeline.value, x.worker, x.request)
    {
      if x in m.answers {
        ActionKeepsAssigned(m, a, x.pipeline.value, x.worker, x.request);
      } else {
        QueueRuns.ClaimHandsOutActive(m.db, a.worker, Some(a.request), a.supportsSpec);
      }
    }
  }

  /** The pipeline of a received answer was not begun before: its request would have been used up. */
  lemma ReceivedIsNew(m: World, w: nat, p: nat, k: nat)
    requires Identified(m) && IsPolling(m, w) && Answer(w, m.runners[w].request, Some(p)) in m.answers
    requires k < |m.begun|
    ensures m.begun[k].pipeline != p
  {
  }

  /** No runner changed its request, and no execution began. */
  ghost predicate SameRequests(m: World, n: World) {
    && n.begun == m.begun && n.issued == m.issued && n.runners.Keys == m.runners.Keys
    && forall w | w in m.runners :: n.runners[w].request == m.runners[w].request
  }

  lemma MostKeepRequests(m: World, a: Action)
    requires Enabled(m, a) && !a.Restart? && !a.ReceiveAnswer?
    ensures SameRequests(m, Next(m, a))
  {
  }

  lemma ActionKeepsBegun(m: World, a: Action)
    requires Enabled(m, a) && Identified(m)
    ensures BegunOk(Next(m, a))
  {
    var n := Next(m, a);
    if a.ReceiveAnswer? {
      ReceiveKeepsBegun(m, a);
    } else if a.Restart? {
      assert n.begun == m.begun && n.db == m.db;
    } else {
      MostKeepRequests(m, a);
      forall k | 0 <= k < |n.begun|
        ensures AssignedTo(n.db, n.begun[k].pipeline, n.begun[k].worker, n.begun[k].request)
      {
        ActionKeepsAssigned(m, a, m.begun[k].pipeline, m.begun[k].worker, m.begun[k].request);
      }
    }
  }

  lemma ReceiveKeepsBegun(m: World, a: Action)
    requires Enabled(m, a) && Identified(m) && a.ReceiveAnswer?
    ensures BegunOk(Next(m, a))
  {
    var n := Next(m, a);
    if a.pipeline.Some? {
      forall i | 0 <= i < |m.begun|
        ensures m.begun[i].pipeline != a.pipeline.value
      {
        ReceivedIsNew(m, a.worker, a.pipeline.value, i);
      }
    }
  }

  lemma ActionKeepsRequests(m: World, a: Action)
    requires Enabled(m, a) && Identified(m)
    ensures RequestsOk(Next(m, a))
  {
    if a.ReceiveAnswer? {
      ReceiveKeepsRequests(m, a);
    } else if a.Restart? {
      RestartKeepsRequests(m, a);
    } else {
      MostKeepRequests(m, a);
      SameRequestsStayOk(m, Next(m, a));
    }
  }

  lemma SameRequestsStayOk(m: World, n: World)
    requires RequestsOk(m) && SameRequests(m, n)
    ensures RequestsOk(n)
  {
    forall v, w | v in n.runners && w in n.runners && v != w
      ensures n.runners[v].request != n.runners[w].request
    {
      assert v in m.runners && w in m.runners;
    }
  }

  lemma RestartKeepsRequests(m: World, a: Action)
    requires Enabled(m, a) && Identified(m) && a.Restart?
    ensures RequestsOk(Next(m, a))
  {
  }

  lemma ReceiveKeepsRequests(m: World, a: Action)
    requires Enabled(m, a) && Identified(m) && a.ReceiveAnswer?
    ensures RequestsOk(Next(m, a))
  {
  }

  lemma ActionKeepsIdentified(m: World, a: Action)
    requires Enabled(m, a) && Identified(m)
    ensures Identified(Next(m, a))
  {
    var s := ActionIsQueueStep(m, a);
    QueueRuns.StepKeepsSound(m.db, s);
    ActionKeepsAnswers(m, a);
    ActionKeepsBegun(m, a);
    ActionKeepsRequests(m, a);
  }

  lemma {:induction false} RunKeepsIdentified(m: World, actions: seq<Action>)
    requires Possible(m, actions) && Identified(m)
    ensures Identified(Run(m, actions))
    decreases actions
  {
    if actions != [] {
      ActionKeepsIdentified(m, actions[0]);
      RunKeepsIdentified(Next(m, actions[0]), actions[1..]);
    }
  }

  /**
   * Over every interleaving of lost, delayed and repeated claims, restarts, reaps and clock ticks, no
   * pipeline begins to execute twice, on whatever runner, and it began on the runner recorded in its row.
   */
  lemma ExecutesAtMostOnce(actions: seq<Action>)
    requires Possible(INITIAL, actions)
    ensures var m := Run(INITIAL, actions);
            && (forall i, j | 0 <= i < j < |m.begun| :: m.begun[i].pipeline != m.begun[j].pipeline)
            && (forall k | 0 <= k < |m.begun| ::
                AssignedTo(m.db, m.begun[k].pipeline, m.begun[k].worker, m.begun[k].request))
  {
    RunKeepsIdentified(INITIAL, actions);
  }

  /** No two pipelines ever carry the same runner and request. */
  lemma ClaimIdentityIsUnique(actions: seq<Action>, p: nat, q: nat, w: nat, r: nat)
    requires Possible(INITIAL, actions)
    requires AssignedTo(Run(INITIAL, actions).db, p, w, r) && AssignedTo(Run(INITIAL, actions).db, q, w, r)
    ensures p == q
  {
    RunKeepsIdentified(INITIAL, actions);
    var db := Run(INITIAL, actions).db;
    assert QueueRuns.SameClaim(db.pipelines[p], db.pipelines[q]);
  }
}
