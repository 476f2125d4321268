/** End to end: a pipeline recorded as succeeded has every job recorded as succeeded. */
module Completion {
  import opened Wrappers
  import opened Protocol
  import Config
  import Queue
  import QueueRuns
  import Scheduler
  import Topo

  // ---------- the jobs of a pipeline ----------

  /** There are jobs, and all of them are recorded as succeeded. */
  predicate AllSucceeded(db: Db, p: nat) {
    && (exists k :: 0 <= k < |db.jobs| && db.jobs[k].pipeline == p)
    && (forall k | 0 <= k < |db.jobs| && db.jobs[k].pipeline == p :: db.jobs[k].status.JobSucceeded?)
  }

  predicate NoJobs(db: Db, p: nat) {
    forall k | 0 <= k < |db.jobs| :: db.jobs[k].pipeline != p
  }

  predicate HasStray(strays: seq<Stray>, p: nat) {
    exists k :: 0 <= k < |strays| && strays[k].pipeline == p
  }

  predicate HasBegun(m: World, p: nat) {
    exists k :: 0 <= k < |m.begun| && m.begun[k].pipeline == p
  }

  // ---------- what an execution in progress keeps ----------

  /** The jobs of p are the rows from base, one for each job of the configuration. */
  predicate JobsAre(db: Db, p: nat, base: nat, n: nat) {
    && base + n <= |db.jobs|
    && forall k | 0 <= k < |db.jobs| :: db.jobs[k].pipeline == p <==> base <= k < base + n
  }

  /** A call that may still arrive belongs to a job whose closure failed. */
  predicate StrayIsBroken(run: Execution, p: nat, s: Stray)
    requires run.Working?
  {
    s.pipeline == p ==> s.StrayStatus? && run.base <= s.job && (s.job - run.base) in run.phases
                        && run.phases[s.job - run.base].Broken?
  }

  /** Every started job has a closure, and every completed one recorded success. */
  predicate PhasesFit(v: Scheduler.View, phases: map<nat, Phase>, n: nat) {
    && phases.Keys == v.started && (forall j | j in phases :: j < n)
    && (forall j | j in v.done :: j in phases && phases[j] == Recorded(true))
  }

  /** A job was joined with success exactly when its closure recorded success, and is not under way any more. */
  predicate FinishFits(running: set<nat>, phases: map<nat, Phase>, e: Scheduler.Event) {
    e.Finish? ==>
      && e.job !in running && e.job in phases
      && (e.outcome.Completed? <==> phases[e.job] == Recorded(true))
  }

  predicate FinishesFit(trace: seq<Scheduler.Event>, running: set<nat>, phases: map<nat, Phase>) {
    forall k | 0 <= k < |trace| :: FinishFits(running, phases, trace[k])
  }

  /** The trace is one of the scheduler. */
  ghost predicate TraceOk(run: Execution)
    requires run.Working?
  {
    && Scheduler.Consistent(run.config) && run.config.jobs != []
    && Scheduler.Legal(run.config, run.config.maxParallelJobs, run.trace)
    && PhasesFit(Scheduler.ViewOf(run.trace), run.phases, |run.config.jobs|)
    && FinishesFit(run.trace, Scheduler.ViewOf(run.trace).running, run.phases)
  }

  /** What the row of a job says while its closure is in that phase; its pipeline may have been closed meanwhile. */
  predicate StatusFits(status: Queue.JobStatus, phase: Phase) {
    match phase
    case Begun => status.JobQueued? || status.JobSkipped? || status.JobCanceled?
    case Announced => status.JobRunning? || status.JobFailed? || status.JobCanceled?
    case Recorded(success) => if success then status.JobSucceeded? else status.JobFailed?
    case Broken => true
  }

  /** A job that was not started is as one whose closure just began. */
  predicate RowFits(db: Db, run: Execution, j: nat)
    requires run.Working? && run.base + j < |db.jobs|
  {
    StatusFits(db.jobs[run.base + j].status, if j in run.phases then run.phases[j] else Begun)
  }

  /** The rows of the pipeline say how far the closures have come. */
  predicate RecordsOk(db: Db, p: nat, run: Execution)
    requires run.Working?
  {
    && JobsAre(db, p, run.base, |run.config.jobs|)
    && forall j: nat {:trigger RowFits(db, run, j)} | j < |run.config.jobs| :: RowFits(db, run, j)
  }

  predicate StraysOk(strays: seq<Stray>, p: nat, run: Execution)
    requires run.Working?
  {
    forall k | 0 <= k < |strays| :: StrayIsBroken(run, p, strays[k])
  }

  ghost predicate WorkingOk(db: Db, strays: seq<Stray>, p: nat, run: Execution)
    requires run.Working?
  {
    TraceOk(run) && RecordsOk(db, p, run) && StraysOk(strays, p, run)
  }

  ghost predicate RunOk(m: World, p: nat, run: Execution) {
    match run
    case Preparing => NoJobs(m.db, p) && !HasStray(m.strays, p)
    case Working(_, _, _, _) => WorkingOk(m.db, m.strays, p, run)
    case Reporting => true
  }

  predicate NoReport(reports: set<Report>, p: nat) {
    forall r | r in reports :: r.pipeline != p
  }

  ghost predicate RunnerOk(m: World, w: nat)
    requires w in m.runners
  {
    m.runners[w].Executing? ==>
      var p, run := m.runners[w].pipeline, m.runners[w].run;
      && RunOk(m, p, run) && (!run.Reporting? ==> NoReport(m.reports, p))
      && exists k :: 0 <= k < |m.begun| && m.begun[k].pipeline == p && m.begun[k].worker == w
  }

  predicate StrayFits(m: World, s: Stray) {
    && HasBegun(m, s.pipeline)
    && (s.StrayStatus? ==> s.job < |m.db.jobs| && m.db.jobs[s.job].pipeline == s.pipeline)
  }

  /** A pending report of success is justified for good. */
  predicate ReportOk(m: World, r: Report) {
    HasBegun(m, r.pipeline) && (r.success ==> AllSucceeded(m.db, r.pipeline) && !HasStray(m.strays, r.pipeline))
  }

  predicate SuccessReported(reports: set<Report>, p: nat) {
    exists r :: r in reports && r.pipeline == p && r.success
  }

  ghost predicate Consistent(m: World) {
    && Identified(m)
    && (forall w | w in m.runners :: RunnerOk(m, w))
    && (forall k | 0 <= k < |m.strays| :: StrayFits(m, m.strays[k]))
    && (forall r | r in m.reports :: ReportOk(m, r))
    && (forall k | 0 <= k < |m.db.jobs| :: HasBegun(m, m.db.jobs[k].pipeline))
    && (forall p: nat | p < |m.db.pipelines| && m.db.pipelines[p].status.Succeeded? :: SuccessReported(m.reports, p))
  }

  // ---------- two runners never work on one pipeline ----------

  lemma OneExecutor(m: World, v: nat, w: nat)
    requires Consistent(m) && IsExecuting(m, v) && IsExecuting(m, w)
    requires m.runners[v].pipeline == m.runners[w].pipeline
    ensures v == w
  {
    assert RunnerOk(m, v) && RunnerOk(m, w);
  }

  // ---------- how one transaction may change the jobs ----------

  /** A status stays, unless the job was open and is closed with its pipeline. */
  predicate StatusKept(a: Queue.JobStatus, b: Queue.JobStatus) {
    || b == a
    || (a.JobQueued? && (b.JobSkipped? || b.JobCanceled?))
    || (a.JobRunning? && (b.JobFailed? || b.JobCanceled?))
  }

  /** Jobs stay in place and are at most closed, except for job `spare`. */
  predicate JobsKept(a: seq<Queue.Job>, b: seq<Queue.Job>, spare: int) {
    && |a| <= |b|
    && forall k | 0 <= k < |a| ::
         b[k].pipeline == a[k].pipeline && (k != spare ==> StatusKept(a[k].status, b[k].status))
  }

  lemma EnvironmentKeepsJobs(db: Db, s: QueueRuns.Step)
    requires IsEnvironment(s) || s.FinishStep? || s.ClaimStep?
    ensures var b := QueueRuns.Apply(db, s); |b.jobs| == |db.jobs| && JobsKept(db.jobs, b.jobs, -1)
  {
  }

  /** New rows belong to pipeline q, and so does the job that may change freely. */
  predicate JobsKeptBut(a: seq<Queue.Job>, b: seq<Queue.Job>, q: int, spare: int) {
    && JobsKept(a, b, spare)
    && (forall k | |a| <= k < |b| :: b[k].pipeline == q)
    && (0 <= spare < |a| ==> a[spare].pipeline == q)
  }

  /** Every call that may still arrive is an old one or about pipeline q. */
  predicate StraysKeptBut(a: seq<Stray>, b: seq<Stray>, q: int) {
    forall k | 0 <= k < |b| :: b[k] in a || b[k].pipeline == q
  }

  lemma KeptAllSucceeded(a: Db, b: Db, q: int, spare: int, p: nat)
    requires JobsKeptBut(a.jobs, b.jobs, q, spare) && AllSucceeded(a, p) && p != q
    ensures AllSucceeded(b, p)
  {
    var k :| 0 <= k < |a.jobs| && a.jobs[k].pipeline == p;
    assert b.jobs[k].pipeline == p;
    forall k | 0 <= k < |b.jobs| && b.jobs[k].pipeline == p
      ensures b.jobs[k].status.JobSucceeded?
    {
      assert a.jobs[k].pipeline == p;
    }
  }

  lemma KeptRecords(a: Db, b: Db, q: int, spare: int, p: nat, run: Execution)
    requires run.Working? && RecordsOk(a, p, run) && p != q && JobsKeptBut(a.jobs, b.jobs, q, spare)
    ensures RecordsOk(b, p, run)
  {
    forall j: nat | j < |run.config.jobs|
      ensures RowFits(b, run, j)
    {
      assert RowFits(a, run, j) && a.jobs[run.base + j].pipeline == p;
      KeptStatusFits(a.jobs[run.base + j].status, b.jobs[run.base + j].status,
                     if j in run.phases then run.phases[j] else Begun);
    }
  }

  lemma KeptStatusFits(a: Queue.JobStatus, b: Queue.JobStatus, phase: Phase)
    requires StatusFits(a, phase) && StatusKept(a, b)
    ensures StatusFits(b, phase)
  {
  }

  lemma KeptStrays(strays: seq<Stray>, kept: seq<Stray>, q: int, p: nat, run: Execution)
    requires run.Working? && StraysOk(strays, p, run) && p != q && StraysKeptBut(strays, kept, q)
    ensures StraysOk(kept, p, run)
  {
  }

  lemma KeptPreparing(a: Db, b: Db, strays: seq<Stray>, kept: seq<Stray>, q: int, spare: int, p: nat)
    requires NoJobs(a, p) && !HasStray(strays, p) && p != q
    requires JobsKeptBut(a.jobs, b.jobs, q, spare) && StraysKeptBut(strays, kept, q)
    ensures NoJobs(b, p) && !HasStray(kept, p)
  {
    forall k | 0 <= k < |b.jobs|
      ensures b.jobs[k].pipeline != p
    {
      assert k < |a.jobs| ==> b.jobs[k].pipeline == a.jobs[k].pipeline;
    }
  }

  // ---------- one action, seen from everything it does not concern ----------

  /** What happened only concerns pipeline q (-1: none), and no success of q was reported before. */
  ghost predicate OnlyConcerns(m: World, n: World, q: int, spare: int) {
    && m.begun <= n.begun
    && JobsKeptBut(m.db.jobs, n.db.jobs, q, spare) && StraysKeptBut(m.strays, n.strays, q)
    && (forall r | r in m.reports :: r in n.reports && (r.success ==> r.pipeline != q))
    && (forall r | r in n.reports && r !in m.reports :: r.pipeline == q)
  }

  /** A runner that the action left alone and that works on another pipeline. */
  predicate Aside(m: World, n: World, w: nat, q: int)
    requires w in n.runners
  {
    w in m.runners && n.runners[w] == m.runners[w] && (n.runners[w].Executing? ==> n.runners[w].pipeline != q)
  }

  lemma BegunGrows(m: World, n: World, p: nat)
    requires m.begun <= n.begun && HasBegun(m, p)
    ensures HasBegun(n, p)
  {
    var k :| 0 <= k < |m.begun| && m.begun[k].pipeline == p;
    assert n.begun[k].pipeline == p;
  }

  lemma AsideKeepsRunner(m: World, n: World, q: int, spare: int, w: nat)
    requires OnlyConcerns(m, n, q, spare) && w in n.runners && Aside(m, n, w, q) && RunnerOk(m, w)
    ensures RunnerOk(n, w)
  {
    if n.runners[w].Executing? {
      var p, run := m.runners[w].pipeline, m.runners[w].run;
      var k :| 0 <= k < |m.begun| && m.begun[k].pipeline == p && m.begun[k].worker == w;
      assert n.begun[k] == m.begun[k];
      match run
      case Preparing => KeptPreparing(m.db, n.db, m.strays, n.strays, q, spare, p);
      case Working(_, _, _, _) =>
        KeptRecords(m.db, n.db, q, spare, p, run);
        KeptStrays(m.strays, n.strays, q, p, run);
      case Reporting =>
    }
  }

  lemma OldReportStays(m: World, n: World, q: int, spare: int, r: Report)
    requires OnlyConcerns(m, n, q, spare) && r in m.reports && ReportOk(m, r)
    ensures ReportOk(n, r)
  {
    BegunGrows(m, n, r.pipeline);
    if r.success {
      KeptAllSucceeded(m.db, n.db, q, spare, r.pipeline);
    }
  }

  lemma OldStrayStays(m: World, n: World, q: int, spare: int, s: Stray)
    requires OnlyConcerns(m, n, q, spare) && StrayFits(m, s)
    ensures StrayFits(n, s)
  {
    BegunGrows(m, n, s.pipeline);
  }

  lemma JobsStayBegun(m: World, n: World, q: int, spare: int, k: nat)
    requires OnlyConcerns(m, n, q, spare) && k < |n.db.jobs|
    requires k < |m.db.jobs| ==> HasBegun(m, m.db.jobs[k].pipeline)
    requires |m.db.jobs| < |n.db.jobs| ==> q >= 0 && HasBegun(n, q)
    ensures HasBegun(n, n.db.jobs[k].pipeline)
  {
    if k < |m.db.jobs| {
      BegunGrows(m, n, m.db.jobs[k].pipeline);
    }
  }

  /** Every pipeline that has succeeded was reported as succeeded before. */
  ghost predicate AllReported(m: World, n: World) {
    forall p: nat | p < |n.db.pipelines| && n.db.pipelines[p].status.Succeeded? :: SuccessReported(m.reports, p)
  }

  lemma ConcernsKeepConsistent(m: World, n: World, q: int, spare: int)
    requires Consistent(m) && Identified(n) && OnlyConcerns(m, n, q, spare) && AllReported(m, n)
    requires forall w | w in n.runners :: Aside(m, n, w, q) || RunnerOk(n, w)
    requires forall k | 0 <= k < |n.strays| && n.strays[k] !in m.strays :: StrayFits(n, n.strays[k])
    requires forall r | r in n.reports && r !in m.reports :: ReportOk(n, r)
    requires |m.db.jobs| < |n.db.jobs| ==> q >= 0 && HasBegun(n, q)
    ensures Consistent(n)
  {
    forall w | w in n.runners
      ensures RunnerOk(n, w)
    {
      if Aside(m, n, w, q) {
        AsideKeepsRunner(m, n, q, spare, w);
      }
    }
    forall k | 0 <= k < |n.strays|
      ensures StrayFits(n, n.strays[k])
    {
      if n.strays[k] in m.strays {
        OldStrayStays(m, n, q, spare, n.strays[k]);
      }
    }
    forall r | r in n.reports
      ensures ReportOk(n, r)
    {
      if r in m.reports {
        OldReportStays(m, n, q, spare, r);
      }
    }
    forall k | 0 <= k < |n.db.jobs|
      ensures HasBegun(n, n.db.jobs[k].pipeline)
    {
      JobsStayBegun(m, n, q, spare, k);
    }
    forall p: nat | p < |n.db.pipelines| && n.db.pipelines[p].status.Succeeded?
      ensures SuccessReported(n.reports, p)
    {
      var r :| r in m.reports && r.pipeline == p && r.success;
      assert r in n.reports;
    }
  }

  /** A pipeline becomes succeeded only by a delivered report of success. */
  lemma SuccessWasReported(m: World, a: Action, p: nat)
    requires Enabled(m, a) && Consistent(m)
    requires p < |Next(m, a).db.pipelines| && Next(m, a).db.pipelines[p].status.Succeeded?
    ensures SuccessReported(m.reports, p)
  {
    var s := ActionIsQueueStep(m, a);
    if s.FinishStep? && !HadSucceeded(m.db, p) {
      FinishSucceeds(m.db, s, p);
      assert a.report in m.reports;
    } else {
      OnlyFinishSucceeds(m.db, s, p);
    }
  }

  predicate HadSucceeded(db: Db, p: nat) {
    p < |db.pipelines| && db.pipelines[p].status.Succeeded?
  }

  lemma FinishSucceeds(db: Db, s: QueueRuns.Step, p: nat)
    requires s.FinishStep? && !HadSucceeded(db, p) && HadSucceeded(QueueRuns.Apply(db, s), p)
    ensures s.pipeline == p && s.success
  {
  }

  lemma OnlyFinishSucceeds(db: Db, s: QueueRuns.Step, p: nat)
    requires p < |QueueRuns.Apply(db, s).pipelines| && QueueRuns.Apply(db, s).pipelines[p].status.Succeeded?
    requires !s.FinishStep? || (p < |db.pipelines| && db.pipelines[p].status.Succeeded?)
    ensures p < |db.pipelines| && db.pipelines[p].status.Succeeded?
  {
    QueueRuns.StepKeepsRows(db, s);
  }

  // ---------- the actions, one by one ----------

  /** Actions that change no job beyond closing it, and leave every execution alone or drop it. */
  predicate IsQuiet(a: Action) {
    || a.Environment? || a.Restart? || a.SendClaim? || a.DeliverClaim? || a.DeliverReport? || a.StopReporting?
  }

  lemma QuietKeepsJobs(m: World, a: Action)
    requires Enabled(m, a) && IsQuiet(a)
    ensures JobsKeptBut(m.db.jobs, Next(m, a).db.jobs, -1, -1) && |m.db.jobs| == |Next(m, a).db.jobs|
  {
    match a
    case Environment(s) => EnvironmentKeepsJobs(m.db, s);
    case DeliverReport(r) => EnvironmentKeepsJobs(m.db, QueueRuns.FinishStep(r.pipeline, r.worker, r.success));
    case _ =>
  }

  lemma QuietKeepsConsistent(m: World, a: Action)
    requires Enabled(m, a) && Consistent(m) && IsQuiet(a)
    ensures Consistent(Next(m, a))
  {
    var n := Next(m, a);
    ActionKeepsIdentified(m, a);
    QuietKeepsJobs(m, a);
    SuccessesWereReported(m, a);
    assert OnlyConcerns(m, n, -1, -1);
    ConcernsKeepConsistent(m, n, -1, -1);
  }

  lemma SuccessesWereReported(m: World, a: Action)
    requires Enabled(m, a) && Consistent(m)
    ensures AllReported(m, Next(m, a))
  {
    forall p: nat | p < |Next(m, a).db.pipelines| && Next(m, a).db.pipelines[p].status.Succeeded?
      ensures SuccessReported(m.reports, p)
    {
      SuccessWasReported(m, a, p);
    }
  }

  /** A pipeline that has not begun has no jobs, no calls under way and no report. */
  lemma UnbegunIsUntouched(m: World, p: nat)
    requires Consistent(m) && !HasBegun(m, p)
    ensures NoJobs(m.db, p) && !HasStray(m.strays, p) && NoReport(m.reports, p)
  {
    forall k | 0 <= k < |m.strays|
      ensures m.strays[k].pipeline != p
    {
      assert StrayFits(m, m.strays[k]);
    }
    forall r | r in m.reports
      ensures r.pipeline != p
    {
      assert ReportOk(m, r);
    }
  }

  lemma ReceiveKeepsConsistent(m: World, a: Action)
    requires Enabled(m, a) && Consistent(m) && a.ReceiveAnswer?
    ensures Consistent(Next(m, a))
  {
    var n := Next(m, a);
    ActionKeepsIdentified(m, a);
    SuccessesWereReported(m, a);
    assert OnlyConcerns(m, n, -1, -1);
    if a.pipeline.Some? {
      var p := a.pipeline.value;
      forall k | 0 <= k < |m.begun|
        ensures m.begun[k].pipeline != p
      {
        ReceivedIsNew(m, a.worker, p, k);
      }
      UnbegunIsUntouched(m, p);
      assert n.begun[|m.begun|].pipeline == p && n.begun[|m.begun|].worker == a.worker;
      assert RunnerOk(n, a.worker);
    }
    ConcernsKeepConsistent(m, n, -1, -1);
  }

  /** What the runner that executes a pipeline does concerns that pipeline only. */
  ghost predicate ExecutorActs(m: World, n: World, w: nat, spare: int)
    requires IsExecuting(m, w)
  {
    var p := m.runners[w].pipeline;
    && w in n.runners && n.begun == m.begun && n.runners == m.runners[w := n.runners[w]]
    && JobsKeptBut(m.db.jobs, n.db.jobs, p, spare) && StraysKeptBut(m.strays, n.strays, p)
    && m.reports <= n.reports && (forall r | r in n.reports && r !in m.reports :: r.pipeline == p && ReportOk(n, r))
    && (forall k | 0 <= k < |n.strays| && n.strays[k] !in m.strays :: StrayFits(n, n.strays[k]))
  }

  /** Actions by the runner that executes a pipeline change nothing another runner relies on. */
  lemma ExecutorKeepsConsistent(m: World, n: World, w: nat, spare: int)
    requires Consistent(m) && IsExecuting(m, w) && !m.runners[w].run.Reporting?
    requires Identified(n) && AllReported(m, n) && ExecutorActs(m, n, w, spare) && RunnerOk(n, w)
    ensures Consistent(n)
  {
    var p := m.runners[w].pipeline;
    assert RunnerOk(m, w);
    OthersAreAside(m, n, w);
    assert HasBegun(n, p);
    assert OnlyConcerns(m, n, p, spare);
    ConcernsKeepConsistent(m, n, p, spare);
  }

  lemma OthersAreAside(m: World, n: World, w: nat)
    requires Consistent(m) && IsExecuting(m, w) && w in n.runners && n.runners == m.runners[w := n.runners[w]]
    ensures forall v | v in n.runners && v != w :: Aside(m, n, v, m.runners[w].pipeline)
  {
    forall v | v in n.runners && v != w
      ensures Aside(m, n, v, m.runners[w].pipeline)
    {
      if IsExecuting(m, v) && m.runners[v].pipeline == m.runners[w].pipeline {
        OneExecutor(m, v, w);
      }
    }
  }

  /** The two facts about the next world that do not depend on executions. */
  lemma NextIsIdentified(m: World, a: Action)
    requires Enabled(m, a) && Consistent(m)
    ensures Identified(Next(m, a)) && AllReported(m, Next(m, a))
  {
    ActionKeepsIdentified(m, a);
    SuccessesWereReported(m, a);
  }

  lemma AllRecorded(run: Execution, j: nat)
    requires run.Working? && TraceOk(run) && MayEnd(run, true) && j < |run.config.jobs|
    ensures j in run.phases && run.phases[j] == Recorded(true)
  {
    assert j in Scheduler.ViewOf(run.trace).done;
  }

  lemma RecordsAreComplete(db: Db, p: nat, run: Execution)
    requires run.Working? && RecordsOk(db, p, run) && run.config.jobs != []
    requires forall j: nat | j < |run.config.jobs| :: j in run.phases && run.phases[j] == Recorded(true)
    ensures AllSucceeded(db, p)
  {
    assert db.jobs[run.base].pipeline == p;
    forall k | 0 <= k < |db.jobs| && db.jobs[k].pipeline == p
      ensures db.jobs[k].status.JobSucceeded?
    {
      var j: nat := k - run.base;
      assert j in run.phases && run.phases[j] == Recorded(true);
      assert RowFits(db, run, j);
    }
  }

  lemma RecordedIsNotBroken(run: Execution, p: nat, s: Stray)
    requires run.Working? && TraceOk(run) && StrayIsBroken(run, p, s)
    requires forall j: nat | j < |run.config.jobs| :: j in run.phases && run.phases[j] == Recorded(true)
    ensures s.pipeline != p
  {
    assert PhasesFit(Scheduler.ViewOf(run.trace), run.phases, |run.config.jobs|);
  }

  lemma WorkIsComplete(db: Db, strays: seq<Stray>, p: nat, run: Execution)
    requires run.Working? && WorkingOk(db, strays, p, run) && MayEnd(run, true)
    ensures AllSucceeded(db, p) && !HasStray(strays, p)
  {
    forall j: nat | j < |run.config.jobs|
      ensures j in run.phases && run.phases[j] == Recorded(true)
    {
      AllRecorded(run, j);
    }
    RecordsAreComplete(db, p, run);
    forall k | 0 <= k < |strays|
      ensures strays[k].pipeline != p
    {
      assert StrayIsBroken(run, p, strays[k]);
      RecordedIsNotBroken(run, p, strays[k]);
    }
  }

  /** A successful end of the run: all jobs are recorded as succeeded and no call is left under way. */
  lemma SuccessIsComplete(m: World, w: nat)
    requires Consistent(m) && IsExecuting(m, w) && MayEnd(m.runners[w].run, true)
    ensures AllSucceeded(m.db, m.runners[w].pipeline) && !HasStray(m.strays, m.runners[w].pipeline)
  {
    assert RunnerOk(m, w);
    WorkIsComplete(m.db, m.strays, m.runners[w].pipeline, m.runners[w].run);
  }

  lemma EndKeepsConsistent(m: World, a: Action)
    requires Enabled(m, a) && Consistent(m) && (a.EndRun? || a.LoseCreateJobs?)
    ensures Consistent(Next(m, a))
  {
    NextIsIdentified(m, a);
    var success := a.EndRun? && a.success;
    if success {
      SuccessIsComplete(m, a.worker);
    }
    var p := m.runners[a.worker].pipeline;
    var lost := if a.EndRun? then [] else [StrayCreate(p, a.worker, a.config)];
    assert m.strays + [] == m.strays;
    EndConcernsOnly(m, Next(m, a), a.worker, success, lost);
  }

  lemma EndConcernsOnly(m: World, n: World, w: nat, success: bool, lost: seq<Stray>)
    requires Consistent(m) && IsExecuting(m, w) && !m.runners[w].run.Reporting?
    requires var p := m.runners[w].pipeline;
             && n == SetRun(m, w, Reporting).(reports := m.reports + {Report(p, w, success)}, strays := m.strays + lost)
             && (success ==> AllSucceeded(m.db, p) && !HasStray(m.strays, p) && lost == [])
             && forall k | 0 <= k < |lost| :: lost[k].StrayCreate? && lost[k].pipeline == p
    requires Identified(n) && AllReported(m, n)
    ensures Consistent(n)
  {
    var p := m.runners[w].pipeline;
    assert RunnerOk(m, w);
    var k :| 0 <= k < |m.begun| && m.begun[k].pipeline == p && m.begun[k].worker == w;
    assert n.begun[k] == m.begun[k];
    ExecutorKeepsConsistent(m, n, w, -1);
  }

  /** An accepted creation: the new rows are the jobs of p, and none has started. */
  lemma NewRunIsOk(a: Db, strays: seq<Stray>, p: nat, w: nat, c: Config.PipelineConfig)
    requires NoJobs(a, p) && !HasStray(strays, p) && Scheduler.Consistent(c) && c.jobs != []
    requires var (b, jobs) := Queue.CreateJobs(a, p, w, c); jobs.Some? && SameJobList(jobs.value, c)
    ensures WorkingOk(Queue.CreateJobs(a, p, w, c).0, strays, p, Working(c, |a.jobs|, [], map[]))
  {
    var (b, jobs) := Queue.CreateJobs(a, p, w, c);
    assert JobsAre(b, p, |a.jobs|, |c.jobs|);
    var run := Working(c, |a.jobs|, [], map[]);
    forall j: nat | j < |c.jobs|
      ensures RowFits(b, run, j)
    {
      assert b.jobs[|a.jobs| + j] == jobs.value[j];
    }
  }

  lemma CreateAddsJobs(a: Db, p: nat, w: nat, c: Config.PipelineConfig)
    ensures JobsKeptBut(a.jobs, Queue.CreateJobs(a, p, w, c).0.jobs, p, -1)
  {
  }

  lemma CreateKeepsConsistent(m: World, a: Action)
    requires Enabled(m, a) && Consistent(m) && a.CreateJobs?
    ensures Consistent(Next(m, a))
  {
    NextIsIdentified(m, a);
    CreateConcernsOnly(m, Next(m, a), a.worker, a.config);
  }

  lemma CreateConcernsOnly(m: World, n: World, w: nat, c: Config.PipelineConfig)
    requires Consistent(m) && IsPreparing(m, w) && Scheduler.Consistent(c) && c.jobs != []
    requires n == DoCreateJobs(m, w, c) && Identified(n) && AllReported(m, n)
    ensures Consistent(n)
  {
    var p := m.runners[w].pipeline;
    assert RunnerOk(m, w);
    CreateAddsJobs(m.db, p, w, c);
    var k :| 0 <= k < |m.begun| && m.begun[k].pipeline == p && m.begun[k].worker == w;
    assert n.begun[k] == m.begun[k];
    if n.runners[w].run.Working? {
      NewRunIsOk(m.db, m.strays, p, w, c);
    }
    CreateActs(m, n, w, c);
    ExecutorKeepsConsistent(m, n, w, -1);
  }

  lemma CreateActs(m: World, n: World, w: nat, c: Config.PipelineConfig)
    requires IsPreparing(m, w) && n == DoCreateJobs(m, w, c) && HasBegun(m, m.runners[w].pipeline)
    ensures ExecutorActs(m, n, w, -1)
  {
    var p := m.runners[w].pipeline;
    CreateAddsJobs(m.db, p, w, c);
    BegunGrows(m, n, p);
  }

  lemma ObserveKeepsPhases(jobs: nat, limit: nat, v: Scheduler.View, phases: map<nat, Phase>, e: Scheduler.Event)
    requires PhasesFit(v, phases, jobs) && Scheduler.Orderly(jobs, limit, v, e)
    requires e.Finish? ==> e.job in phases && (e.outcome.Completed? <==> phases[e.job] == Recorded(true))
    ensures PhasesFit(Scheduler.After(v, e), if e.Start? then phases[e.job := Begun] else phases, jobs)
    ensures e.Start? ==> e.job !in phases
  {
    if e.Start? {
      StartFitsPhases(jobs, v, phases, e.job);
    }
  }

  lemma StartFitsPhases(jobs: nat, v: Scheduler.View, phases: map<nat, Phase>, i: nat)
    requires PhasesFit(v, phases, jobs) && i < jobs && i !in v.started
    ensures PhasesFit(Scheduler.After(v, Scheduler.Start(i)), phases[i := Begun], jobs)
  {
    forall j | j in v.done
      ensures j != i
    {
      assert j in phases;
    }
  }

  lemma AllowedIsOrderly(c: Config.PipelineConfig, v: Scheduler.View, e: Scheduler.Event)
    requires Scheduler.Consistent(c) && Scheduler.Allowed(c, c.maxParallelJobs, v, e)
    ensures Scheduler.Orderly(|c.jobs|, c.maxParallelJobs, v, e)
  {
  }

  lemma ObserveKeepsTrace(run: Execution, e: Scheduler.Event)
    requires run.Working? && TraceOk(run) && Observable(run, e)
    ensures TraceOk(run.(trace := run.trace + [e],
                         phases := if e.Start? then run.phases[e.job := Begun] else run.phases))
    ensures e.Start? ==> e.job !in run.phases
  {
    var limit, v := run.config.maxParallelJobs, Scheduler.ViewOf(run.trace);
    AllowedIsOrderly(run.config, v, e);
    ObserveKeepsPhases(|run.config.jobs|, limit, v, run.phases, e);
    ObserveKeepsFinishes(run.trace, |run.config.jobs|, limit, v, run.phases, e);
  }

  lemma ObserveKeepsFinishes(trace: seq<Scheduler.Event>, jobs: nat, limit: nat, v: Scheduler.View,
                             phases: map<nat, Phase>, e: Scheduler.Event)
    requires FinishesFit(trace, v.running, phases) && Scheduler.Orderly(jobs, limit, v, e) && phases.Keys == v.started
    requires e.Finish? ==> e.job in phases && (e.outcome.Completed? <==> phases[e.job] == Recorded(true))
    ensures FinishesFit(trace + [e], Scheduler.After(v, e).running, if e.Start? then phases[e.job := Begun] else phases)
  {
    var next := if e.Start? then phases[e.job := Begun] else phases;
    forall k | 0 <= k < |trace + [e]|
      ensures FinishFits(Scheduler.After(v, e).running, next, (trace + [e])[k])
    {
      assert k < |trace| ==> FinishFits(v.running, phases, trace[k]);
    }
  }

  lemma ObserveKeepsRun(m: World, w: nat, e: Scheduler.Event)
    requires IsWorking(m, w) && Observable(m.runners[w].run, e)
    requires WorkingOk(m.db, m.strays, m.runners[w].pipeline, m.runners[w].run)
    ensures IsWorking(DoObserve(m, w, e), w)
    ensures WorkingOk(m.db, m.strays, m.runners[w].pipeline, DoObserve(m, w, e).runners[w].run)
  {
    var p, run := m.runners[w].pipeline, m.runners[w].run;
    ObserveKeepsTrace(run, e);
    ObserveKeepsRest(m.db, m.strays, p, run, DoObserve(m, w, e).runners[w].run, e);
  }

  lemma ObserveKeepsRest(db: Db, strays: seq<Stray>, p: nat, run: Execution, next: Execution, e: Scheduler.Event)
    requires run.Working? && next.Working? && RecordsOk(db, p, run) && StraysOk(strays, p, run)
    requires next.config == run.config && next.base == run.base
    requires next.phases == if e.Start? then run.phases[e.job := Begun] else run.phases
    requires e.Start? ==> e.job !in run.phases
    ensures RecordsOk(db, p, next) && StraysOk(strays, p, next)
  {
    forall k | 0 <= k < |strays|
      ensures StrayIsBroken(next, p, strays[k])
    {
      assert StrayIsBroken(run, p, strays[k]);
    }
    forall j: nat | j < |run.config.jobs|
      ensures RowFits(db, next, j)
    {
      assert RowFits(db, run, j);
    }
  }

  lemma ObserveKeepsConsistent(m: World, a: Action)
    requires Enabled(m, a) && Consistent(m) && a.Observe?
    ensures Consistent(Next(m, a))
  {
    var w, n := a.worker, Next(m, a);
    assert RunnerOk(m, w);
    NextIsIdentified(m, a);
    ObserveKeepsRun(m, w, a.event);
    ObserveConcernsOnly(m, n, w, a.event);
  }

  lemma ObserveConcernsOnly(m: World, n: World, w: nat, e: Scheduler.Event)
    requires Consistent(m) && IsWorking(m, w) && n == DoObserve(m, w, e) && Identified(n) && AllReported(m, n)
    requires WorkingOk(n.db, n.strays, m.runners[w].pipeline, n.runners[w].run)
    ensures Consistent(n)
  {
    assert RunnerOk(m, w);
    MovedRunnerIsOk(m, n, w, n.runners[w].run);
    ExecutorKeepsConsistent(m, n, w, -1);
  }

  /** The closure of a job that is under way and has not recorded success yet moves on. */
  lemma PhaseKeepsTrace(run: Execution, j: nat, phase: Phase)
    requires run.Working? && TraceOk(run) && j in run.phases && run.phases[j] != Recorded(true)
    requires j in Scheduler.ViewOf(run.trace).running
    ensures TraceOk(SetPhase(run, j, phase))
  {
    var running := Scheduler.ViewOf(run.trace).running;
    forall k | 0 <= k < |run.trace|
      ensures FinishFits(running, run.phases[j := phase], run.trace[k])
    {
      assert FinishFits(running, run.phases, run.trace[k]);
    }
  }

  lemma PhaseKeepsStrays(strays: seq<Stray>, p: nat, run: Execution, j: nat, phase: Phase)
    requires run.Working? && StraysOk(strays, p, run) && j in run.phases
    requires run.phases[j] != Broken || phase == Broken
    ensures StraysOk(strays, p, SetPhase(run, j, phase))
  {
    forall k | 0 <= k < |strays|
      ensures StrayIsBroken(SetPhase(run, j, phase), p, strays[k])
    {
      assert StrayIsBroken(run, p, strays[k]);
    }
  }

  /** Job j moves to a phase whose record is in the database; no other job is touched. */
  lemma PhaseKeepsRecords(a: Db, b: Db, p: nat, run: Execution, j: nat, phase: Phase)
    requires run.Working? && RecordsOk(a, p, run) && j in run.phases && j < |run.config.jobs|
    requires |b.jobs| == |a.jobs| && JobsKeptBut(a.jobs, b.jobs, p, run.base + j)
    requires StatusFits(b.jobs[run.base + j].status, phase)
    ensures RecordsOk(b, p, SetPhase(run, j, phase))
  {
    var next := SetPhase(run, j, phase);
    forall i: nat | i < |run.config.jobs|
      ensures RowFits(b, next, i)
    {
      assert RowFits(a, run, i);
      if i != j {
        KeptStatusFits(a.jobs[run.base + i].status, b.jobs[run.base + i].status,
                       if i in run.phases then run.phases[i] else Begun);
      }
    }
  }

  /** The closure of job j of the runner's pipeline, found in the database. */
  lemma ClosureJob(m: World, w: nat, j: nat)
    requires Consistent(m) && IsWorking(m, w) && j in m.runners[w].run.phases
    ensures var p, run := m.runners[w].pipeline, m.runners[w].run;
            && j < |run.config.jobs| && run.base + j < |m.db.jobs| && m.db.jobs[run.base + j].pipeline == p
            && TraceOk(run) && RecordsOk(m.db, p, run) && StraysOk(m.strays, p, run) && HasBegun(m, p)
            && NoReport(m.reports, p)
  {
    assert RunnerOk(m, w);
  }

  predicate IsStatusOf(s: Stray, p: nat, job: nat) {
    s.StrayStatus? && s.pipeline == p && s.job == job
  }

  /** The closure of job j runs and has recorded nothing yet. */
  predicate IsUnderWay(run: Execution, j: nat)
    requires run.Working?
  {
    j in run.phases && run.phases[j] in {Begun, Announced} && j in Scheduler.ViewOf(run.trace).running
  }

  /** The runner only moved on in its run, job j of it at most. */
  ghost predicate Moves(m: World, n: World, w: nat, j: nat, phase: Phase)
    requires IsWorking(m, w)
  {
    var p, run := m.runners[w].pipeline, m.runners[w].run;
    && n.begun == m.begun && n.reports == m.reports
    && n.runners == m.runners[w := m.runners[w].(run := SetPhase(run, j, phase))]
    && |n.db.jobs| == |m.db.jobs| && JobsKept(m.db.jobs, n.db.jobs, run.base + j)
    && m.strays <= n.strays && (forall k | |m.strays| <= k < |n.strays| :: IsStatusOf(n.strays[k], p, run.base + j))
    && (phase != Broken ==> run.base + j < |n.db.jobs| && StatusFits(n.db.jobs[run.base + j].status, phase))
    && (phase != Broken ==> |n.strays| == |m.strays|)
  }

  lemma StatusMoves(m: World, a: Action) returns (phase: Phase)
    requires Enabled(m, a) && Consistent(m) && (a.Announce? || a.Record?)
    ensures IsWorking(m, a.worker) && Moves(m, Next(m, a), a.worker, a.job, phase)
    ensures IsUnderWay(m.runners[a.worker].run, a.job)
  {
    if a.Announce? {
      phase := DoStatusMoves(m, a.worker, a.job, Queue.JobRunning, Announced);
    } else {
      var status := if a.success then Queue.JobSucceeded else Queue.JobFailed;
      phase := DoStatusMoves(m, a.worker, a.job, status, Recorded(a.success));
    }
  }

  lemma DoStatusMoves(m: World, w: nat, j: nat, status: Queue.JobStatus, next: Phase) returns (phase: Phase)
    requires IsWorking(m, w) && StatusFits(status, next)
    ensures Moves(m, DoStatus(m, w, j, status, next), w, j, phase)
  {
    phase := if Queue.JobActive(m.db, m.runners[w].run.base + j, w) then next else Broken;
  }

  lemma BreakMoves(m: World, a: Action)
    requires Enabled(m, a) && Consistent(m) && a.Break?
    ensures IsWorking(m, a.worker) && Moves(m, Next(m, a), a.worker, a.job, Broken)
    ensures IsUnderWay(m.runners[a.worker].run, a.job)
  {
  }

  lemma MovedStrays(m: World, n: World, w: nat, j: nat, phase: Phase)
    requires IsWorking(m, w) && Moves(m, n, w, j, phase) && j in m.runners[w].run.phases
    requires StraysOk(m.strays, m.runners[w].pipeline, SetPhase(m.runners[w].run, j, phase))
    ensures StraysOk(n.strays, m.runners[w].pipeline, SetPhase(m.runners[w].run, j, phase))
  {
    var p, next := m.runners[w].pipeline, SetPhase(m.runners[w].run, j, phase);
    forall k | 0 <= k < |n.strays|
      ensures StrayIsBroken(next, p, n.strays[k])
    {
      if k < |m.strays| {
        assert n.strays[k] == m.strays[k];
        assert StrayIsBroken(next, p, m.strays[k]);
      }
    }
  }

  lemma MovedRecords(m: World, n: World, w: nat, j: nat, phase: Phase)
    requires IsWorking(m, w) && Moves(m, n, w, j, phase) && j in m.runners[w].run.phases
    requires j < |m.runners[w].run.config.jobs| && RecordsOk(m.db, m.runners[w].pipeline, m.runners[w].run)
    ensures RecordsOk(n.db, m.runners[w].pipeline, SetPhase(m.runners[w].run, j, phase))
  {
    PhaseKeepsRecords(m.db, n.db, m.runners[w].pipeline, m.runners[w].run, j, phase);
  }

  lemma MoveKeepsWorking(m: World, n: World, w: nat, j: nat, phase: Phase)
    requires Consistent(m) && IsWorking(m, w) && Moves(m, n, w, j, phase)
    requires IsUnderWay(m.runners[w].run, j)
    ensures WorkingOk(n.db, n.strays, m.runners[w].pipeline, SetPhase(m.runners[w].run, j, phase))
  {
    ClosureJob(m, w, j);
    PhaseKeepsTrace(m.runners[w].run, j, phase);
    PhaseKeepsStrays(m.strays, m.runners[w].pipeline, m.runners[w].run, j, phase);
    MovedRecords(m, n, w, j, phase);
    MovedStrays(m, n, w, j, phase);
  }

  lemma MoveKeepsConsistent(m: World, n: World, w: nat, j: nat, phase: Phase)
    requires Consistent(m) && IsWorking(m, w) && Moves(m, n, w, j, phase) && Identified(n) && AllReported(m, n)
    requires IsUnderWay(m.runners[w].run, j)
    ensures Consistent(n)
  {
    assert RunnerOk(m, w);
    MoveKeepsWorking(m, n, w, j, phase);
    MovedRunnerIsOk(m, n, w, SetPhase(m.runners[w].run, j, phase));
    MoveActs(m, n, w, j, phase);
    ExecutorKeepsConsistent(m, n, w, m.runners[w].run.base + j);
  }

  lemma MoveActs(m: World, n: World, w: nat, j: nat, phase: Phase)
    requires Consistent(m) && IsWorking(m, w) && Moves(m, n, w, j, phase)
    requires j in m.runners[w].run.phases
    ensures ExecutorActs(m, n, w, m.runners[w].run.base + j)
  {
    ClosureJob(m, w, j);
    BegunGrows(m, n, m.runners[w].pipeline);
  }

  /** A runner that only moved on in its run. */
  lemma MovedRunnerIsOk(m: World, n: World, w: nat, run: Execution)
    requires IsWorking(m, w) && RunnerOk(m, w) && m.begun == n.begun && m.reports == n.reports
    requires n.runners == m.runners[w := m.runners[w].(run := run)] && run.Working?
    requires WorkingOk(n.db, n.strays, m.runners[w].pipeline, run)
    ensures RunnerOk(n, w)
  {
  }

  lemma StatusKeepsConsistent(m: World, a: Action)
    requires Enabled(m, a) && Consistent(m) && (a.Announce? || a.Record?)
    ensures Consistent(Next(m, a))
  {
    var phase := StatusMoves(m, a);
    NextIsIdentified(m, a);
    MoveKeepsConsistent(m, Next(m, a), a.worker, a.job, phase);
  }

  lemma BreakKeepsConsistent(m: World, a: Action)
    requires Enabled(m, a) && Consistent(m) && a.Break?
    ensures Consistent(Next(m, a))
  {
    BreakMoves(m, a);
    NextIsIdentified(m, a);
    MoveKeepsConsistent(m, Next(m, a), a.worker, a.job, Broken);
  }

  /** What the arrival of a late call does to the jobs. */
  lemma StrayChangesJobs(db: Db, s: Stray)
    requires s.StrayStatus? ==> s.job < |db.jobs| && db.jobs[s.job].pipeline == s.pipeline
    ensures JobsKeptBut(db.jobs, DeliverCall(db, s).jobs, s.pipeline, if s.StrayStatus? then s.job else -1)
    ensures s.StrayStatus? ==> |DeliverCall(db, s).jobs| == |db.jobs|
  {
  }

  /** A call that arrives late only touches a job whose closure already failed. */
  lemma StrayKeepsRecords(a: Db, b: Db, p: nat, run: Execution, s: Stray)
    requires run.Working? && RecordsOk(a, p, run) && StrayIsBroken(run, p, s) && s.pipeline == p
    requires |b.jobs| == |a.jobs| && JobsKeptBut(a.jobs, b.jobs, p, if s.StrayStatus? then s.job else -1)
    ensures RecordsOk(b, p, run)
  {
    forall j: nat | j < |run.config.jobs|
      ensures RowFits(b, run, j)
    {
      assert RowFits(a, run, j);
      if s.StrayCreate? || run.base + j != s.job {
        KeptStatusFits(a.jobs[run.base + j].status, b.jobs[run.base + j].status,
                       if j in run.phases then run.phases[j] else Begun);
      }
    }
  }

  lemma FewerStrays(strays: seq<Stray>, p: nat, run: Execution, k: nat)
    requires run.Working? && StraysOk(strays, p, run) && k < |strays|
    ensures StraysOk(strays[..k] + strays[k+1..], p, run)
  {
    var fewer := strays[..k] + strays[k+1..];
    forall i | 0 <= i < |fewer|
      ensures StrayIsBroken(run, p, fewer[i])
    {
      assert StrayIsBroken(run, p, if i < k then strays[i] else strays[i+1]);
    }
  }

  lemma StrayKeepsRunner(m: World, n: World, k: nat, w: nat)
    requires Consistent(m) && k < |m.strays| && IsExecuting(m, w) && m.runners[w].pipeline == m.strays[k].pipeline
    requires n == m.(db := DeliverCall(m.db, m.strays[k]), strays := m.strays[..k] + m.strays[k+1..])
    ensures RunnerOk(n, w)
  {
    var s, p, run := m.strays[k], m.runners[w].pipeline, m.runners[w].run;
    assert RunnerOk(m, w) && StrayFits(m, s);
    if run.Working? {
      assert StrayIsBroken(run, p, s);
      StrayChangesJobs(m.db, s);
      StrayKeepsRecords(m.db, n.db, p, run, s);
      FewerStrays(m.strays, p, run, k);
    }
  }

  lemma StrayKeepsConsistent(m: World, a: Action)
    requires Enabled(m, a) && Consistent(m) && a.DeliverStray?
    ensures Consistent(Next(m, a))
  {
    NextIsIdentified(m, a);
    StrayConcernsOnly(m, Next(m, a), a.index);
  }

  lemma StrayConcernsOnly(m: World, n: World, k: nat)
    requires Consistent(m) && k < |m.strays| && Identified(n) && AllReported(m, n)
    requires n == m.(db := DeliverCall(m.db, m.strays[k]), strays := m.strays[..k] + m.strays[k+1..])
    ensures Consistent(n)
  {
    var s := m.strays[k];
    assert StrayFits(m, s);
    StrayChangesJobs(m.db, s);
    forall r | r in m.reports && r.success
      ensures r.pipeline != s.pipeline
    {
      assert ReportOk(m, r);
    }
    forall w | w in n.runners
      ensures Aside(m, n, w, s.pipeline) || RunnerOk(n, w)
    {
      if IsExecuting(m, w) && m.runners[w].pipeline == s.pipeline {
        StrayKeepsRunner(m, n, k, w);
      }
    }
    var spare := if s.StrayStatus? then s.job else -1;
    assert OnlyConcerns(m, n, s.pipeline, spare);
    ConcernsKeepConsistent(m, n, s.pipeline, spare);
  }

  lemma ActionKeepsConsistent(m: World, a: Action)
    requires Enabled(m, a) && Consistent(m)
    ensures Consistent(Next(m, a))
  {
    match a {
      case ReceiveAnswer(_, _, _) => ReceiveKeepsConsistent(m, a);
      case CreateJobs(_, _) => CreateKeepsConsistent(m, a);
      case LoseCreateJobs(_, _) => EndKeepsConsistent(m, a);
      case EndRun(_, _) => EndKeepsConsistent(m, a);
      case Observe(_, _) => ObserveKeepsConsistent(m, a);
      case Announce(_, _) => StatusKeepsConsistent(m, a);
      case Record(_, _, _) => StatusKeepsConsistent(m, a);
      case Break(_, _, _) => BreakKeepsConsistent(m, a);
      case DeliverStray(_) => StrayKeepsConsistent(m, a);
      case _ => QuietKeepsConsistent(m, a);
    }
  }

  lemma {:induction false} RunKeepsConsistent(m: World, actions: seq<Action>)
    requires Possible(m, actions) && Consistent(m)
    ensures Consistent(Run(m, actions))
    decreases actions
  {
    if actions != [] {
      ActionKeepsConsistent(m, actions[0]);
      RunKeepsConsistent(Next(m, actions[0]), actions[1..]);
    }
  }

  /**
   * In every reachable state, whatever was lost, delayed, repeated or restarted: a pipeline recorded as
   * succeeded has jobs, and each of them is recorded as succeeded.
   */
  lemma SucceededMeansAllJobsSucceeded(actions: seq<Action>, p: nat)
    requires Possible(INITIAL, actions)
    requires p < |Run(INITIAL, actions).db.pipelines| && Run(INITIAL, actions).db.pipelines[p].status.Succeeded?
    ensures AllSucceeded(Run(INITIAL, actions).db, p)
  {
    RunKeepsConsistent(INITIAL, actions);
    var m := Run(INITIAL, actions);
    var r :| r in m.reports && r.pipeline == p && r.success;
    assert ReportOk(m, r);
  }

  /** No job is open once its pipeline ended, and none exists before its pipeline was claimed. */
  lemma JobsFitTheirPipeline(actions: seq<Action>, k: nat)
    requires Possible(INITIAL, actions) && k < |Run(INITIAL, actions).db.jobs|
    ensures QueueRuns.JobFits(Run(INITIAL, actions).db.pipelines, Run(INITIAL, actions).db.jobs[k])
  {
    RunKeepsIdentified(INITIAL, actions);
  }
}
