/** What the closure of a job recorded is what stays recorded (src/runner/worker.rs, src/ci/db.rs). */
module JobRecords {
  import opened Wrappers
  import opened Protocol
  import opened Completion
  import Config
  import Queue
  import QueueRuns
  import Scheduler

  /** Whoever works on the job has recorded its end. */
  predicate SettledIn(run: Execution, job: nat)
    requires run.Working?
  {
    run.base <= job < run.base + |run.config.jobs| ==>
      job - run.base in run.phases && run.phases[job - run.base].Recorded?
  }

  predicate NoStrayFor(strays: seq<Stray>, job: nat) {
    forall k | 0 <= k < |strays| :: strays[k].StrayStatus? ==> strays[k].job != job
  }

  /** Nothing that is under way, and nothing that may still arrive, concerns the row of the job. */
  predicate Settled(m: World, job: nat) {
    && job < |m.db.jobs| && !m.db.jobs[job].status.Open() && NoStrayFor(m.strays, job)
    && forall w | w in m.runners :: IsWorking(m, w) ==> SettledIn(m.runners[w].run, job)
  }

  /** Every execution has its own pipeline, with one row for each of its jobs. */
  predicate Placed(m: World) {
    && (forall w | w in m.runners && IsWorking(m, w) ::
          m.runners[w].pipeline < |m.db.pipelines| && RecordsOk(m.db, m.runners[w].pipeline, m.runners[w].run))
    && (forall v, w | v in m.runners && w in m.runners && IsWorking(m, v) && IsWorking(m, w) ::
          m.runners[v].pipeline == m.runners[w].pipeline ==> v == w)
  }

  lemma ConsistentIsPlaced(m: World)
    requires Consistent(m)
    ensures Placed(m)
  {
    forall w | w in m.runners && IsWorking(m, w)
      ensures m.runners[w].pipeline < |m.db.pipelines| && RecordsOk(m.db, m.runners[w].pipeline, m.runners[w].run)
    {
      assert RunnerOk(m, w);
    }
    forall v, w | v in m.runners && w in m.runners && IsWorking(m, v) && IsWorking(m, w)
      ensures m.runners[v].pipeline == m.runners[w].pipeline ==> v == w
    {
      if m.runners[v].pipeline == m.runners[w].pipeline {
        OneExecutor(m, v, w);
      }
    }
  }

  /** The row of a job whose closure recorded its end. */
  lemma RecordedRow(m: World, w: nat, j: nat)
    requires Consistent(m) && IsWorking(m, w) && j in m.runners[w].run.phases && m.runners[w].run.phases[j].Recorded?
    ensures var run := m.runners[w].run;
            run.base + j < |m.db.jobs| && m.db.jobs[run.base + j].pipeline == m.runners[w].pipeline
            && m.db.jobs[run.base + j].status
               == if run.phases[j].success then Queue.JobSucceeded else Queue.JobFailed
  {
    ClosureJob(m, w, j);
    assert RowFits(m.db, m.runners[w].run, j);
  }

  lemma RecordedHasNoStray(strays: seq<Stray>, m: World, p: nat, run: Execution, j: nat)
    requires run.Working? && StraysOk(strays, p, run) && (forall k | 0 <= k < |strays| :: StrayFits(m, strays[k]))
    requires j in run.phases && run.phases[j].Recorded?
    requires run.base + j < |m.db.jobs| && m.db.jobs[run.base + j].pipeline == p
    ensures NoStrayFor(strays, run.base + j)
  {
    forall k | 0 <= k < |strays| && strays[k].StrayStatus?
      ensures strays[k].job != run.base + j
    {
      assert StrayFits(m, strays[k]) && StrayIsBroken(run, p, strays[k]);
    }
  }

  lemma RecordSettles(m: World, w: nat, j: nat)
    requires Consistent(m) && IsWorking(m, w) && j in m.runners[w].run.phases && m.runners[w].run.phases[j].Recorded?
    ensures Settled(m, m.runners[w].run.base + j)
  {
    var p, run := m.runners[w].pipeline, m.runners[w].run;
    RecordedRow(m, w, j);
    ClosureJob(m, w, j);
    RecordedHasNoStray(m.strays, m, p, run, j);
    ConsistentIsPlaced(m);
    RecordedSettlesRunners(m, w, j);
  }

  lemma RecordedSettlesRunners(m: World, w: nat, j: nat)
    requires Placed(m) && IsWorking(m, w) && j in m.runners[w].run.phases && m.runners[w].run.phases[j].Recorded?
    requires var job := m.runners[w].run.base + j;
             job < |m.db.jobs| && m.db.jobs[job].pipeline == m.runners[w].pipeline
    ensures forall v | v in m.runners ::
              IsWorking(m, v) ==> SettledIn(m.runners[v].run, m.runners[w].run.base + j)
  {
    var job := m.runners[w].run.base + j;
    forall v | v in m.runners && IsWorking(m, v)
      ensures SettledIn(m.runners[v].run, job)
    {
      var run := m.runners[v].run;
      if run.base <= job < run.base + |run.config.jobs| {
        assert m.db.jobs[job].pipeline == m.runners[v].pipeline;
      }
    }
  }

  // ---------- no action touches it again ----------

  /** Executions that do not work on the job more than before. */
  predicate RunnersKeep(m: World, n: World, job: nat) {
    forall w | w in n.runners && IsWorking(n, w) :: (IsWorking(m, w) && n.runners[w].run == m.runners[w].run)
      || SettledIn(n.runners[w].run, job)
  }

  lemma KeptIsSettled(m: World, n: World, job: nat, spare: int)
    requires Settled(m, job) && JobsKept(m.db.jobs, n.db.jobs, spare) && spare != job
    requires NoStrayFor(n.strays, job) && RunnersKeep(m, n, job)
    ensures Settled(n, job) && n.db.jobs[job].status == m.db.jobs[job].status
  {
    assert StatusKept(m.db.jobs[job].status, n.db.jobs[job].status);
  }

  lemma QuietKeepsSettled(m: World, a: Action, job: nat)
    requires Enabled(m, a) && IsQuiet(a) && Settled(m, job)
    ensures Settled(Next(m, a), job) && Next(m, a).db.jobs[job].status == m.db.jobs[job].status
  {
    QuietKeepsJobs(m, a);
    KeptIsSettled(m, Next(m, a), job, -1);
  }

  lemma CreateKeepsSettled(m: World, a: Action, job: nat)
    requires Enabled(m, a) && (a.CreateJobs? || a.LoseCreateJobs?) && Settled(m, job)
    ensures Settled(Next(m, a), job) && Next(m, a).db.jobs[job].status == m.db.jobs[job].status
  {
    CreateAddsJobs(m.db, m.runners[a.worker].pipeline, a.worker, a.config);
    KeptIsSettled(m, Next(m, a), job, -1);
  }

  lemma SameJobsKept(jobs: seq<Queue.Job>)
    ensures JobsKept(jobs, jobs, -1)
  {
  }

  lemma ObserveKeepsSettled(m: World, a: Action, job: nat)
    requires Enabled(m, a) && Consistent(m) && a.Observe? && Settled(m, job)
    ensures Settled(Next(m, a), job) && Next(m, a).db.jobs[job].status == m.db.jobs[job].status
  {
    StartedIsNew(m, a);
    ObservingKeepsSettled(m, a.worker, a.event, job);
  }

  /** The scheduler starts a job that has no closure yet. */
  lemma StartedIsNew(m: World, a: Action)
    requires Enabled(m, a) && Consistent(m) && a.Observe?
    ensures a.event.Start? ==> a.event.job !in m.runners[a.worker].run.phases
  {
    assert RunnerOk(m, a.worker);
    ObserveKeepsTrace(m.runners[a.worker].run, a.event);
  }

  lemma ObservingKeepsSettled(m: World, w: nat, e: Scheduler.Event, job: nat)
    requires IsWorking(m, w) && (e.Start? ==> e.job !in m.runners[w].run.phases) && Settled(m, job)
    ensures Settled(DoObserve(m, w, e), job) && DoObserve(m, w, e).db == m.db
  {
    ObservedIsSettled(m.runners[w].run, e, DoObserve(m, w, e).runners[w].run, job);
    SameJobsKept(m.db.jobs);
    KeptIsSettled(m, DoObserve(m, w, e), job, -1);
  }

  lemma ObservedIsSettled(run: Execution, e: Scheduler.Event, next: Execution, job: nat)
    requires run.Working? && next.Working? && SettledIn(run, job)
    requires next.base == run.base && next.config == run.config
    requires next.phases == if e.Start? then run.phases[e.job := Begun] else run.phases
    requires e.Start? ==> e.job !in run.phases
    ensures SettledIn(next, job)
  {
  }

  lemma EndKeepsSettled(m: World, a: Action, job: nat)
    requires Enabled(m, a) && (a.EndRun? || a.ReceiveAnswer?) && Settled(m, job)
    ensures Settled(Next(m, a), job) && Next(m, a).db.jobs[job].status == m.db.jobs[job].status
  {
    SameJobsKept(m.db.jobs);
    KeptIsSettled(m, Next(m, a), job, -1);
  }

  lemma MoveKeepsSettled(m: World, n: World, w: nat, j: nat, phase: Phase, job: nat)
    requires IsWorking(m, w) && Moves(m, n, w, j, phase) && IsUnderWay(m.runners[w].run, j) && Settled(m, job)
    requires j < |m.runners[w].run.config.jobs|
    ensures Settled(n, job) && n.db.jobs[job].status == m.db.jobs[job].status
  {
    var run := m.runners[w].run;
    assert SettledIn(run, job);
    assert run.base + j != job;
    assert SettledIn(n.runners[w].run, job);
    forall k | 0 <= k < |n.strays| && n.strays[k].StrayStatus?
      ensures n.strays[k].job != job
    {
      assert k < |m.strays| ==> n.strays[k] == m.strays[k];
    }
    KeptIsSettled(m, n, job, run.base + j);
  }

  lemma StatusKeepsSettled(m: World, a: Action, job: nat)
    requires Enabled(m, a) && Consistent(m) && (a.Announce? || a.Record? || a.Break?) && Settled(m, job)
    ensures Settled(Next(m, a), job) && Next(m, a).db.jobs[job].status == m.db.jobs[job].status
  {
    var phase := Broken;
    if a.Break? {
      BreakMoves(m, a);
    } else {
      phase := StatusMoves(m, a);
    }
    ClosureJob(m, a.worker, a.job);
    MoveKeepsSettled(m, Next(m, a), a.worker, a.job, phase, job);
  }

  lemma StrayKeepsSettled(m: World, a: Action, job: nat)
    requires Enabled(m, a) && Consistent(m) && a.DeliverStray? && Settled(m, job)
    ensures Settled(Next(m, a), job) && Next(m, a).db.jobs[job].status == m.db.jobs[job].status
  {
    var s, n := m.strays[a.index], Next(m, a);
    assert StrayFits(m, s);
    StrayChangesJobs(m.db, s);
    forall k | 0 <= k < |n.strays| && n.strays[k].StrayStatus?
      ensures n.strays[k].job != job
    {
      assert n.strays[k] == if k < a.index then m.strays[k] else m.strays[k+1];
    }
    KeptIsSettled(m, n, job, if s.StrayStatus? then s.job else -1);
  }

  lemma ActionKeepsSettled(m: World, a: Action, job: nat)
    requires Enabled(m, a) && Consistent(m) && Settled(m, job)
    ensures Settled(Next(m, a), job) && Next(m, a).db.jobs[job].status == m.db.jobs[job].status
  {
    if IsQuiet(a) {
      QuietKeepsSettled(m, a, job);
    } else if a.CreateJobs? || a.LoseCreateJobs? {
      CreateKeepsSettled(m, a, job);
    } else if a.Announce? || a.Record? || a.Break? {
      StatusKeepsSettled(m, a, job);
    } else if a.DeliverStray? {
      StrayKeepsSettled(m, a, job);
    } else if a.Observe? {
      ObserveKeepsSettled(m, a, job);
    } else {
      EndKeepsSettled(m, a, job);
    }
  }

  lemma {:induction false} RunKeepsSettled(m: World, actions: seq<Action>, job: nat)
    requires Possible(m, actions) && Consistent(m) && Settled(m, job)
    ensures Settled(Run(m, actions), job) && Run(m, actions).db.jobs[job].status == m.db.jobs[job].status
    decreases actions
  {
    if actions != [] {
      ActionKeepsConsistent(m, actions[0]);
      ActionKeepsSettled(m, actions[0], job);
      RunKeepsSettled(Next(m, actions[0]), actions[1..], job);
    }
  }

  /** The row of the job is there and has that status. */
  predicate JobIs(db: Db, job: nat, status: Queue.JobStatus) {
    job < |db.jobs| && db.jobs[job].status == status
  }

  /** The closure of job j recorded the end of its script. */
  predicate HasRecorded(m: World, w: nat, j: nat) {
    IsWorking(m, w) && j in m.runners[w].run.phases && m.runners[w].run.phases[j].Recorded?
  }

  /** Some run from the beginning leads here. */
  ghost predicate Reachable(m: World) {
    exists actions :: Possible(INITIAL, actions) && m == Run(INITIAL, actions)
  }

  lemma ReachableIsConsistent(m: World)
    requires Reachable(m)
    ensures Consistent(m)
  {
    var actions :| Possible(INITIAL, actions) && m == Run(INITIAL, actions);
    RunKeepsConsistent(INITIAL, actions);
  }

  /**
   * In every reachable world: what a closure recorded about its script, success or failure, is what the row of the
   * job says, then and in every later world, however the pipeline ends.
   */
  lemma RecordedIsFinal(m: World, w: nat, j: nat, later: seq<Action>)
    requires Reachable(m) && Possible(m, later) && HasRecorded(m, w, j)
    ensures JobIs(Run(m, later).db, m.runners[w].run.base + j,
                  if m.runners[w].run.phases[j].success then Queue.JobSucceeded else Queue.JobFailed)
  {
    ReachableIsConsistent(m);
    RecordedRow(m, w, j);
    RecordSettles(m, w, j);
    RunKeepsSettled(m, later, m.runners[w].run.base + j);
  }

  predicate IsJoin(e: Scheduler.Event, j: nat, completed: bool) {
    e.Finish? && e.job == j && (e.outcome.Completed? <==> completed)
  }

  /** The scheduler joined job j of the runner's pipeline, as completed or not. */
  predicate Joined(m: World, w: nat, j: nat, completed: bool) {
    IsWorking(m, w) && exists k :: 0 <= k < |m.runners[w].run.trace| && IsJoin(m.runners[w].run.trace[k], j, completed)
  }

  /** How a job was joined is how its closure recorded it. */
  lemma JoinedAsRecorded(m: World, w: nat, j: nat, completed: bool)
    requires Consistent(m) && Joined(m, w, j, completed)
    ensures j in m.runners[w].run.phases && (completed <==> m.runners[w].run.phases[j] == Recorded(true))
  {
    assert RunnerOk(m, w);
    var run := m.runners[w].run;
    var k :| 0 <= k < |run.trace| && IsJoin(run.trace[k], j, completed);
    assert FinishFits(Scheduler.ViewOf(run.trace).running, run.phases, run.trace[k]);
  }

  /** A job that the scheduler joined as failed, and whose closure recorded its end, is recorded as failed for good. */
  lemma FailedJoinIsRecordedFailed(m: World, w: nat, j: nat, later: seq<Action>)
    requires Reachable(m) && Possible(m, later) && Joined(m, w, j, false) && HasRecorded(m, w, j)
    ensures JobIs(Run(m, later).db, m.runners[w].run.base + j, Queue.JobFailed)
  {
    ReachableIsConsistent(m);
    JoinedAsRecorded(m, w, j, false);
    RecordedIsFinal(m, w, j, later);
  }

  /** And a job that was joined as completed is recorded as succeeded for good. */
  lemma CompletedJoinIsRecordedSucceeded(m: World, w: nat, j: nat, later: seq<Action>)
    requires Reachable(m) && Possible(m, later) && Joined(m, w, j, true)
    ensures JobIs(Run(m, later).db, m.runners[w].run.base + j, Queue.JobSucceeded)
  {
    ReachableIsConsistent(m);
    JoinedAsRecorded(m, w, j, true);
    RecordedIsFinal(m, w, j, later);
  }

  // ---------- while the pipeline is open ----------

  predicate IsOpen(db: Db, p: nat) {
    p < |db.pipelines| && !db.pipelines[p].status.Terminal()
  }

  /** The row of a job that was not closed with its pipeline: running from the announcement on, and queued before. */
  predicate OpenRowFits(db: Db, run: Execution, j: nat)
    requires run.Working? && run.base + j < |db.jobs|
  {
    var status := db.jobs[run.base + j].status;
    if j !in run.phases || run.phases[j].Begun? then status.JobQueued?
    else run.phases[j].Announced? ==> status.JobRunning?
  }

  predicate OpenFits(db: Db, p: nat, run: Execution)
    requires run.Working?
  {
    IsOpen(db, p) ==>
      forall j: nat {:trigger OpenRowFits(db, run, j)} | j < |run.config.jobs| && run.base + j < |db.jobs| ::
        OpenRowFits(db, run, j)
  }

  predicate AllOpenFit(m: World) {
    forall w | w in m.runners && IsWorking(m, w) :: OpenFits(m.db, m.runners[w].pipeline, m.runners[w].run)
  }

  /** Apart from job `spare`, jobs of pipelines that stay open keep their status; ended pipelines stay ended. */
  predicate OpenKept(a: Db, b: Db, spare: int) {
    && |a.pipelines| <= |b.pipelines| && |a.jobs| <= |b.jobs|
    && (forall k | 0 <= k < |a.jobs| && k != spare && IsOpen(b, a.jobs[k].pipeline) ::
          b.jobs[k].status == a.jobs[k].status)
    && (forall p: nat | p < |a.pipelines| && IsOpen(b, p) :: IsOpen(a, p))
  }

  lemma StepKeepsOpen(db: Db, s: QueueRuns.Step)
    ensures OpenKept(db, QueueRuns.Apply(db, s), if s.JobStatusStep? then s.job else -1)
  {
    OpenStaysOpen(db, s);
    StepKeepsOpenJobs(db, s);
  }

  lemma StepKeepsOpenJobs(db: Db, s: QueueRuns.Step)
    ensures |db.jobs| <= |QueueRuns.Apply(db, s).jobs|
    ensures forall k | 0 <= k < |db.jobs| && !(s.JobStatusStep? && k == s.job)
              && IsOpen(QueueRuns.Apply(db, s), db.jobs[k].pipeline) ::
              QueueRuns.Apply(db, s).jobs[k].status == db.jobs[k].status
  {
  }

  lemma OpenStaysOpen(db: Db, s: QueueRuns.Step)
    ensures |db.pipelines| <= |QueueRuns.Apply(db, s).pipelines|
    ensures forall p: nat | p < |db.pipelines| && IsOpen(QueueRuns.Apply(db, s), p) :: IsOpen(db, p)
  {
    QueueRuns.StepKeepsRows(db, s);
    forall p: nat | p < |db.pipelines| && IsOpen(QueueRuns.Apply(db, s), p)
      ensures IsOpen(db, p)
    {
      QueueRuns.RowStepIsLater(db.pipelines[p], QueueRuns.Apply(db, s).pipelines[p], db.now);
    }
  }

  /** Job `spare` is none of this execution, or one whose closure failed. */
  predicate Spares(run: Execution, spare: int)
    requires run.Working?
  {
    run.base <= spare < run.base + |run.config.jobs| ==>
      spare - run.base in run.phases && run.phases[spare - run.base].Broken?
  }

  lemma KeptFits(a: Db, b: Db, p: nat, run: Execution, spare: int)
    requires run.Working? && OpenFits(a, p, run) && RecordsOk(a, p, run) && p < |a.pipelines|
    requires OpenKept(a, b, spare) && Spares(run, spare)
    ensures OpenFits(b, p, run)
  {
    if IsOpen(b, p) {
      forall j: nat | j < |run.config.jobs| && run.base + j < |b.jobs|
        ensures OpenRowFits(b, run, j)
      {
        assert OpenRowFits(a, run, j) && a.jobs[run.base + j].pipeline == p;
      }
    }
  }

  /** An execution that the action left alone, together with the job that the action may change. */
  predicate LeftAlone(m: World, n: World, w: nat, spare: int)
    requires IsWorking(n, w)
  {
    w in m.runners && n.runners[w] == m.runners[w] && Spares(n.runners[w].run, spare)
  }

  lemma WorldKeepsFit(m: World, n: World, spare: int)
    requires Placed(m) && AllOpenFit(m) && OpenKept(m.db, n.db, spare)
    requires forall w | w in n.runners && IsWorking(n, w) ::
               LeftAlone(m, n, w, spare) || OpenFits(n.db, n.runners[w].pipeline, n.runners[w].run)
    ensures AllOpenFit(n)
  {
    forall w | w in n.runners && IsWorking(n, w)
      ensures OpenFits(n.db, n.runners[w].pipeline, n.runners[w].run)
    {
      if LeftAlone(m, n, w, spare) {
        KeptFits(m.db, n.db, m.runners[w].pipeline, m.runners[w].run, spare);
      }
    }
  }

  lemma SameDbKept(db: Db)
    ensures OpenKept(db, db, -1)
  {
  }

  /** No execution got further. */
  predicate NobodyMoves(m: World, n: World) {
    forall w | w in n.runners && IsWorking(n, w) :: w in m.runners && n.runners[w] == m.runners[w]
  }

  lemma QuietMovesNobody(m: World, a: Action)
    requires Enabled(m, a) && (IsQuiet(a) || a.EndRun? || a.ReceiveAnswer? || a.LoseCreateJobs? || a.DeliverStray?)
    ensures NobodyMoves(m, Next(m, a))
  {
  }

  lemma NobodyMovedKeepsFit(m: World, n: World)
    requires Placed(m) && AllOpenFit(m) && OpenKept(m.db, n.db, -1) && NobodyMoves(m, n)
    ensures AllOpenFit(n)
  {
    forall w | w in n.runners && IsWorking(n, w)
      ensures LeftAlone(m, n, w, -1)
    {
    }
    WorldKeepsFit(m, n, -1);
  }

  lemma QuietKeepsOpen(m: World, a: Action)
    requires Enabled(m, a) && (IsQuiet(a) || a.EndRun? || a.ReceiveAnswer? || a.LoseCreateJobs?)
    ensures OpenKept(m.db, Next(m, a).db, -1)
  {
    match a
    case Environment(s) => StepKeepsOpen(m.db, s);
    case DeliverClaim(_, _, _) => DeliveryKeepsOpen(m, a);
    case DeliverReport(_) => DeliveryKeepsOpen(m, a);
    case _ => SameDbKept(m.db);
  }

  lemma DeliveryKeepsOpen(m: World, a: Action)
    requires Enabled(m, a) && (a.DeliverClaim? || a.DeliverReport?)
    ensures OpenKept(m.db, Next(m, a).db, -1)
  {
    if a.DeliverClaim? {
      StepKeepsOpen(m.db, QueueRuns.ClaimStep(a.worker, Some(a.request), a.supportsSpec));
    } else {
      StepKeepsOpen(m.db, QueueRuns.FinishStep(a.report.pipeline, a.report.worker, a.report.success));
    }
  }

  lemma QuietKeepsFit(m: World, a: Action)
    requires Enabled(m, a) && Consistent(m) && AllOpenFit(m)
    requires IsQuiet(a) || a.EndRun? || a.ReceiveAnswer? || a.LoseCreateJobs?
    ensures AllOpenFit(Next(m, a))
  {
    ConsistentIsPlaced(m);
    QuietKeepsOpen(m, a);
    QuietMovesNobody(m, a);
    NobodyMovedKeepsFit(m, Next(m, a));
  }

  /** A call that arrives late finds its closure failed. */
  lemma StraySpares(m: World, k: nat, w: nat)
    requires Consistent(m) && k < |m.strays| && IsWorking(m, w)
    ensures Spares(m.runners[w].run, if m.strays[k].StrayStatus? then m.strays[k].job else -1)
  {
    assert RunnerOk(m, w) && StrayFits(m, m.strays[k]);
    assert StrayIsBroken(m.runners[w].run, m.runners[w].pipeline, m.strays[k]);
  }

  lemma StrayKeepsOpen(db: Db, s: Stray)
    ensures OpenKept(db, DeliverCall(db, s), if s.StrayStatus? then s.job else -1)
  {
    match s
    case StrayCreate(p, w, c) => StepKeepsOpen(db, QueueRuns.CreateJobsStep(p, w, c));
    case StrayStatus(_, j, w, status) => StepKeepsOpen(db, QueueRuns.JobStatusStep(j, w, status));
  }

  lemma StrayKeepsFit(m: World, a: Action)
    requires Enabled(m, a) && Consistent(m) && AllOpenFit(m) && a.DeliverStray?
    ensures AllOpenFit(Next(m, a))
  {
    var s, n := m.strays[a.index], Next(m, a);
    var spare := if s.StrayStatus? then s.job else -1;
    StrayKeepsOpen(m.db, s);
    forall w | w in n.runners && IsWorking(n, w)
      ensures LeftAlone(m, n, w, spare)
    {
      StraySpares(m, a.index, w);
    }
    ConsistentIsPlaced(m);
    WorldKeepsFit(m, n, spare);
  }

  /** One runner moves on; the others do not work on the job that changed. */
  lemma ExecutorKeepsFit(m: World, n: World, w: nat, spare: int)
    requires Placed(m) && AllOpenFit(m) && OpenKept(m.db, n.db, spare) && IsExecuting(m, w)
    requires w in n.runners && n.runners == m.runners[w := n.runners[w]]
    requires spare == -1
          || (IsWorking(m, w) && 0 <= spare < |m.db.jobs| && m.db.jobs[spare].pipeline == m.runners[w].pipeline)
    requires IsWorking(n, w) ==> OpenFits(n.db, n.runners[w].pipeline, n.runners[w].run)
    ensures AllOpenFit(n)
  {
    forall v | v in n.runners && IsWorking(n, v)
      ensures LeftAlone(m, n, v, spare) || OpenFits(n.db, n.runners[v].pipeline, n.runners[v].run)
    {
      var run := n.runners[v].run;
      if v != w && run.base <= spare < run.base + |run.config.jobs| {
        assert false;
      }
    }
    WorldKeepsFit(m, n, spare);
  }

  /** Created jobs are queued, and none has started. */
  lemma CreateKeepsFit(m: World, n: World, w: nat, c: Config.PipelineConfig)
    requires Placed(m) && AllOpenFit(m) && IsExecuting(m, w) && n == DoCreateJobs(m, w, c)
    ensures AllOpenFit(n)
  {
    StepKeepsOpen(m.db, QueueRuns.CreateJobsStep(m.runners[w].pipeline, w, c));
    CreatedFits(m, w, c);
    ExecutorKeepsFit(m, n, w, -1);
  }

  lemma CreatedFits(m: World, w: nat, c: Config.PipelineConfig)
    requires IsExecuting(m, w)
    ensures var n := DoCreateJobs(m, w, c);
            IsWorking(n, w) ==> OpenFits(n.db, n.runners[w].pipeline, n.runners[w].run)
  {
    var n := DoCreateJobs(m, w, c);
    if IsWorking(n, w) {
      var run := n.runners[w].run;
      forall j: nat | j < |run.config.jobs| && run.base + j < |n.db.jobs|
        ensures OpenRowFits(n.db, run, j)
      {
        assert n.db.jobs[|m.db.jobs| + j].status.JobQueued?;
      }
    }
  }

  lemma ObserveKeepsFit(m: World, a: Action)
    requires Enabled(m, a) && Consistent(m) && AllOpenFit(m) && a.Observe?
    ensures AllOpenFit(Next(m, a))
  {
    var w, n := a.worker, DoObserve(m, a.worker, a.event);
    assert RunnerOk(m, w);
    ObserveKeepsTrace(m.runners[w].run, a.event);
    ObservedFits(m.db, m.runners[w].pipeline, m.runners[w].run, n.runners[w].run, a.event);
    SameDbKept(m.db);
    ConsistentIsPlaced(m);
    ExecutorKeepsFit(m, n, w, -1);
  }

  lemma ObservedFits(db: Db, p: nat, run: Execution, next: Execution, e: Scheduler.Event)
    requires run.Working? && next.Working? && OpenFits(db, p, run)
    requires next.base == run.base && next.config == run.config
    requires next.phases == if e.Start? then run.phases[e.job := Begun] else run.phases
    requires e.Start? ==> e.job !in run.phases
    ensures OpenFits(db, p, next)
  {
    if IsOpen(db, p) {
      forall j: nat | j < |run.config.jobs| && run.base + j < |db.jobs|
        ensures OpenRowFits(db, next, j)
      {
        assert OpenRowFits(db, run, j);
      }
    }
  }

  /** The row of a job that moves to that phase, when its pipeline is open. */
  predicate MovedFits(status: Queue.JobStatus, phase: Phase) {
    !phase.Begun? && (phase.Announced? ==> status.JobRunning?)
  }

  lemma PhaseFits(a: Db, b: Db, p: nat, run: Execution, j: nat, phase: Phase)
    requires run.Working? && OpenFits(a, p, run) && RecordsOk(a, p, run) && p < |a.pipelines|
    requires OpenKept(a, b, run.base + j) && j < |run.config.jobs| && MovedFits(b.jobs[run.base + j].status, phase)
    ensures OpenFits(b, p, SetPhase(run, j, phase))
  {
    if IsOpen(b, p) {
      forall i: nat | i < |run.config.jobs| && run.base + i < |b.jobs|
        ensures OpenRowFits(b, SetPhase(run, j, phase), i)
      {
        assert OpenRowFits(a, run, i) && a.jobs[run.base + i].pipeline == p;
      }
    }
  }

  lemma PhaseKeepsFit(m: World, n: World, w: nat, j: nat, phase: Phase)
    requires Placed(m) && AllOpenFit(m) && IsWorking(m, w) && j < |m.runners[w].run.config.jobs|
    requires n.runners == m.runners[w := m.runners[w].(run := SetPhase(m.runners[w].run, j, phase))]
    requires var job := m.runners[w].run.base + j;
             OpenKept(m.db, n.db, job) && (job < |n.db.jobs| ==> MovedFits(n.db.jobs[job].status, phase))
    ensures AllOpenFit(n)
  {
    PhaseFits(m.db, n.db, m.runners[w].pipeline, m.runners[w].run, j, phase);
    ExecutorKeepsFit(m, n, w, m.runners[w].run.base + j);
  }

  lemma DoStatusKeepsFit(m: World, n: World, w: nat, j: nat, status: Queue.JobStatus, phase: Phase)
    requires Placed(m) && AllOpenFit(m) && IsWorking(m, w) && j < |m.runners[w].run.config.jobs|
    requires MovedFits(status, phase) && n == DoStatus(m, w, j, status, phase)
    ensures AllOpenFit(n)
  {
    if Queue.JobActive(m.db, m.runners[w].run.base + j, w) {
      StepKeepsOpen(m.db, QueueRuns.JobStatusStep(m.runners[w].run.base + j, w, status));
      PhaseKeepsFit(m, n, w, j, phase);
    } else {
      SameDbKept(m.db);
      PhaseKeepsFit(m, n, w, j, Broken);
    }
  }

  lemma StatusKeepsFit(m: World, a: Action)
    requires Enabled(m, a) && Placed(m) && AllOpenFit(m) && (a.Announce? || a.Record?)
    requires a.job < |m.runners[a.worker].run.config.jobs|
    ensures AllOpenFit(Next(m, a))
  {
    if a.Announce? {
      DoStatusKeepsFit(m, Next(m, a), a.worker, a.job, Queue.JobRunning, Announced);
    } else {
      var status := if a.success then Queue.JobSucceeded else Queue.JobFailed;
      DoStatusKeepsFit(m, Next(m, a), a.worker, a.job, status, Recorded(a.success));
    }
  }

  lemma BreakKeepsFit(m: World, a: Action)
    requires Enabled(m, a) && Placed(m) && AllOpenFit(m) && a.Break? && a.job < |m.runners[a.worker].run.config.jobs|
    ensures AllOpenFit(Next(m, a))
  {
    SameDbKept(m.db);
    PhaseKeepsFit(m, Next(m, a), a.worker, a.job, Broken);
  }

  lemma ClosureKeepsFit(m: World, a: Action)
    requires Enabled(m, a) && Consistent(m) && AllOpenFit(m) && (a.Announce? || a.Record? || a.Break?)
    ensures AllOpenFit(Next(m, a))
  {
    ClosureJob(m, a.worker, a.job);
    ConsistentIsPlaced(m);
    if a.Break? {
      BreakKeepsFit(m, a);
    } else {
      StatusKeepsFit(m, a);
    }
  }

  lemma ActionKeepsFit(m: World, a: Action)
    requires Enabled(m, a) && Consistent(m) && AllOpenFit(m)
    ensures AllOpenFit(Next(m, a))
  {
    if a.CreateJobs? {
      ConsistentIsPlaced(m);
      CreateKeepsFit(m, Next(m, a), a.worker, a.config);
    } else if a.Observe? {
      ObserveKeepsFit(m, a);
    } else if a.Announce? || a.Record? || a.Break? {
      ClosureKeepsFit(m, a);
    } else if a.DeliverStray? {
      StrayKeepsFit(m, a);
    } else {
      QuietKeepsFit(m, a);
    }
  }

  lemma {:induction false} RunKeepsFit(m: World, actions: seq<Action>)
    requires Possible(m, actions) && Consistent(m) && AllOpenFit(m)
    ensures Consistent(Run(m, actions)) && AllOpenFit(Run(m, actions))
    decreases actions
  {
    if actions != [] {
      ActionKeepsConsistent(m, actions[0]);
      ActionKeepsFit(m, actions[0]);
      RunKeepsFit(Next(m, actions[0]), actions[1..]);
    }
  }

  lemma ReachableFits(m: World)
    requires Reachable(m)
    ensures Placed(m) && AllOpenFit(m)
  {
    var actions :| Possible(INITIAL, actions) && m == Run(INITIAL, actions);
    RunKeepsFit(INITIAL, actions);
    ConsistentIsPlaced(m);
  }

  /**
   * In every reachable world: until the pipeline ends, the job of a closure that was not started or announced is
   * queued, and from the announcement to the recorded end it is running.
   */
  lemma RowsFollowClosures(m: World, w: nat, j: nat)
    requires Reachable(m) && IsWorking(m, w) && j < |m.runners[w].run.config.jobs|
    requires IsOpen(m.db, m.runners[w].pipeline)
    ensures var (job, phases) := (m.runners[w].run.base + j, m.runners[w].run.phases);
            && (j !in phases || phases[j].Begun? ==> JobIs(m.db, job, Queue.JobQueued))
            && (j in phases && phases[j].Announced? ==> JobIs(m.db, job, Queue.JobRunning))
  {
    ReachableFits(m);
    assert OpenRowFits(m.db, m.runners[w].run, j);
  }

  /** What a status call of a closure asks for. */
  function Asked(a: Action): Queue.JobStatus
    requires a.Announce? || a.Record?
  {
    if a.Announce? then Queue.JobRunning else if a.success then Queue.JobSucceeded else Queue.JobFailed
  }

  lemma CallSetsRow(m: World, a: Action)
    requires Enabled(m, a) && (a.Announce? || a.Record?) && OwnRow(m, a)
    ensures var (w, job) := (a.worker, m.runners[a.worker].run.base + a.job);
            if Queue.Active(m.db, m.runners[w].pipeline, w) then JobIs(Next(m, a).db, job, Asked(a))
            else Next(m, a).db == m.db
  {
  }

  predicate OwnRow(m: World, a: Action)
    requires a.Announce? || a.Record?
  {
    && IsWorking(m, a.worker) && m.runners[a.worker].run.base + a.job < |m.db.jobs|
    && m.db.jobs[m.runners[a.worker].run.base + a.job].pipeline == m.runners[a.worker].pipeline
  }

  lemma CallOwnsRow(m: World, a: Action)
    requires Reachable(m) && Enabled(m, a) && (a.Announce? || a.Record?)
    ensures OwnRow(m, a) && a.job < |m.runners[a.worker].run.config.jobs|
  {
    ReachableIsConsistent(m);
    ClosureJob(m, a.worker, a.job);
  }

  /**
   * In every reachable world, until the pipeline ends: a job is announced while it is queued and recorded while it
   * is running; the call of the active holder sets the row, and no other call changes anything.
   */
  lemma StatusesComeInOrder(m: World, a: Action)
    requires Reachable(m) && Enabled(m, a) && (a.Announce? || a.Record?)
    requires IsOpen(m.db, m.runners[a.worker].pipeline)
    ensures var (w, job) := (a.worker, m.runners[a.worker].run.base + a.job);
            && JobIs(m.db, job, if a.Announce? then Queue.JobQueued else Queue.JobRunning)
            && if Queue.Active(m.db, m.runners[w].pipeline, w) then JobIs(Next(m, a).db, job, Asked(a))
               else Next(m, a).db == m.db
  {
    CallOwnsRow(m, a);
    RowsFollowClosures(m, a.worker, a.job);
    CallSetsRow(m, a);
  }
}
