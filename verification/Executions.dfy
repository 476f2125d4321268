/** What can happen: every behaviour of the scheduler is one of the whole system, up to the end of its pipeline. */
module Executions {
  import opened Wrappers
  import opened Protocol
  import Config
  import Queue
  import QueueRuns
  import Scheduler
  import Topo
  import Completion
  import EndToEnd
  import PipelineFile
  import Settings

  lemma {:induction false} PossibleConcat(m: World, a: seq<Action>, b: seq<Action>)
    requires Possible(m, a) && Possible(Run(m, a), b)
    ensures Possible(m, a + b) && Run(m, a + b) == Run(Run(m, a), b)
    decreases a
  {
    if a == [] {
      assert a + b == b;
    } else {
      assert (a + b)[1..] == a[1..] + b;
      PossibleConcat(Next(m, a[0]), a[1..], b);
    }
  }

  lemma OneAction(m: World, a: Action)
    requires Enabled(m, a)
    ensures Possible(m, [a]) && Run(m, [a]) == Next(m, a)
  {
    assert [a][1..] == [];
  }

  // ---------- a pipeline that is given out is worked on ----------

  /** The runner asks and is answered: from then on it prepares the pipeline. */
  lemma AnswerHappens(m: World, w: nat, p: nat, newId: nat) returns (actions: seq<Action>)
    requires Completion.Consistent(m) && IsPolling(m, w) && newId !in m.issued
    requires Queue.Claim(m.db, w, Some(m.runners[w].request), true).1 == Some(p)
    ensures Possible(m, actions)
    ensures var n := Run(m, actions);
            && IsPreparing(n, w) && n.runners[w].pipeline == p && Queue.Active(n.db, p, w)
            && n.db == Queue.Claim(m.db, w, Some(m.runners[w].request), true).0
  {
    var r := m.runners[w].request;
    var a, b, c := SendClaim(w), DeliverClaim(w, r, true), ReceiveAnswer(w, Some(p), newId);
    QueueRuns.ClaimHandsOutActive(m.db, w, Some(r), true);
    OneAction(m, a);
    OneAction(Next(m, a), b);
    PossibleConcat(m, [a], [b]);
    OneAction(Next(Next(m, a), b), c);
    PossibleConcat(m, [a] + [b], [c]);
    actions := [a] + [b] + [c];
  }

  /** What is created for a preparing runner are the jobs of its configuration, and it starts with the first of them. */
  lemma CreationHappens(l: Config.Limits, m: World, w: nat, read: Config.PipelineConfig, v: Config.PipelineConfig)
    returns (actions: seq<Action>)
    requires Completion.Consistent(m) && EndToEnd.SpecsValidated(l, m.db) && IsPreparing(m, w)
    requires Queue.Active(m.db, m.runners[w].pipeline, w)
    requires Config.IsValidation(l, Queue.UsedConfig(m.db.pipelines[m.runners[w].pipeline], read), Ok(v))
    ensures Possible(m, actions)
    ensures var n := Run(m, actions);
            && Ready(n, w, -1) && n.runners[w].run.trace == [] && n.runners[w].run.config == v
            && n.runners[w].pipeline == m.runners[w].pipeline
  {
    var p, c := m.runners[w].pipeline, Queue.UsedConfig(m.db.pipelines[m.runners[w].pipeline], read);
    EndToEnd.PreparingHasNoJobs(m, w);
    PipelineFile.ValidationGivesAcceptable(l, c, v);
    EndToEnd.ValidatedMayRun(l, v);
    if m.db.pipelines[p].spec.Some? {
      Config.ValidatedIsFixed(l, c, Ok(v));
    }
    Settings.NoCollision(l, m.db, p, v);
    OneAction(m, CreateJobs(w, v));
    actions := [CreateJobs(w, v)];
    CreatedIsReady(m, w, v);
  }

  lemma CreatedIsReady(m: World, w: nat, v: Config.PipelineConfig)
    requires IsPreparing(m, w) && Queue.Active(m.db, m.runners[w].pipeline, w) && Scheduler.Consistent(v)
    requires var p := m.runners[w].pipeline;
             Queue.UsedConfig(m.db.pipelines[p], v) == v && !Queue.JobsCollide(m.db.jobs, p, v)
    ensures var n := DoCreateJobs(m, w, v);
            && Ready(n, w, -1) && n.runners[w].run.trace == [] && n.runners[w].run.config == v
            && n.runners[w].pipeline == m.runners[w].pipeline
  {
    var p, n := m.runners[w].pipeline, DoCreateJobs(m, w, v);
    forall j: nat | j < |v.jobs|
      ensures IsOwnJob(n.db, p, |m.db.jobs|, j)
    {
      assert n.db.jobs[|m.db.jobs| + j] == Queue.NewJobs(p, v)[j];
    }
  }

  // ---------- an execution that follows its scheduler ----------

  predicate IsOwnJob(db: Db, p: nat, base: nat, j: nat) {
    base + j < |db.jobs| && db.jobs[base + j].pipeline == p
  }

  predicate OwnsJobs(db: Db, p: nat, base: nat, n: nat) {
    forall j: nat | j < n :: IsOwnJob(db, p, base, j)
  }

  /** Every job that runs just began, except for job `spare`. */
  predicate JustBegun(run: Execution, spare: int)
    requires run.Working?
  {
    && (forall j | j in run.phases :: j in Scheduler.ViewOf(run.trace).started)
    && forall j | j in Scheduler.ViewOf(run.trace).running ::
         j < |run.config.jobs| && j in run.phases && (j != spare ==> run.phases[j].Begun?)
  }

  /** The runner is the active holder of its pipeline and works on its jobs, by the rules of the scheduler. */
  ghost predicate Ready(m: World, w: nat, spare: int) {
    && IsWorking(m, w) && Queue.Active(m.db, m.runners[w].pipeline, w)
    && OwnsJobs(m.db, m.runners[w].pipeline, m.runners[w].run.base, |m.runners[w].run.config.jobs|)
    && Scheduler.Consistent(m.runners[w].run.config) && JustBegun(m.runners[w].run, spare)
  }

  /** The same pipeline, jobs and configuration; only the trace went on. */
  ghost predicate GoesOn(m: World, n: World, w: nat, trace: seq<Scheduler.Event>)
    requires IsWorking(m, w)
  {
    && IsWorking(n, w) && n.runners[w].pipeline == m.runners[w].pipeline
    && n.runners[w].run.config == m.runners[w].run.config && n.runners[w].run.base == m.runners[w].run.base
    && n.runners[w].run.trace == trace && n.db.pipelines == m.db.pipelines && n.db.now == m.db.now
  }

  lemma StatusHappens(m: World, w: nat, j: nat, status: Queue.JobStatus, phase: Phase)
    requires Ready(m, w, j) && j in m.runners[w].run.phases && j < |m.runners[w].run.config.jobs|
    ensures var n := DoStatus(m, w, j, status, phase);
            Ready(n, w, j) && GoesOn(m, n, w, m.runners[w].run.trace) && n.runners[w].run.phases[j] == phase
  {
    var p, base := m.runners[w].pipeline, m.runners[w].run.base;
    var n := DoStatus(m, w, j, status, phase);
    assert IsOwnJob(m.db, p, base, j);
    forall i: nat | i < |m.runners[w].run.config.jobs|
      ensures IsOwnJob(n.db, p, base, i)
    {
      assert IsOwnJob(m.db, p, base, i);
    }
  }

  /** The closure of a running job announces it and records the end of its script. */
  lemma ClosureHappens(m: World, w: nat, j: nat, success: bool) returns (actions: seq<Action>)
    requires Ready(m, w, -1) && j in Scheduler.ViewOf(m.runners[w].run.trace).running
    ensures Possible(m, actions)
    ensures var n := Run(m, actions);
            Ready(n, w, j) && GoesOn(m, n, w, m.runners[w].run.trace)
            && j in n.runners[w].run.phases && n.runners[w].run.phases[j] == Recorded(success)
  {
    var a, b := Announce(w, j), Record(w, j, success);
    assert Ready(m, w, j);
    StatusHappens(m, w, j, Queue.JobRunning, Announced);
    OneAction(m, a);
    var n := Next(m, a);
    StatusHappens(n, w, j, if success then Queue.JobSucceeded else Queue.JobFailed, Recorded(success));
    OneAction(n, b);
    actions := [a] + [b];
    PossibleConcat(m, [a], [b]);
  }

  lemma ObserveHappens(m: World, w: nat, e: Scheduler.Event, spare: int)
    requires Ready(m, w, spare) && Observable(m.runners[w].run, e)
    requires spare >= 0 ==> e.Finish? && e.job == spare
    ensures Enabled(m, Observe(w, e)) && Ready(Next(m, Observe(w, e)), w, -1)
    ensures GoesOn(m, Next(m, Observe(w, e)), w, m.runners[w].run.trace + [e])
  {
    var run, next := m.runners[w].run, Next(m, Observe(w, e)).runners[w].run;
    assert next.trace[..|run.trace|] == run.trace && next.trace[|run.trace|] == e;
    assert Scheduler.ViewOf(next.trace) == Scheduler.After(Scheduler.ViewOf(run.trace), e);
  }

  /** Whatever event the scheduler may go on with, the system can go on with. */
  lemma EventHappens(m: World, w: nat, e: Scheduler.Event) returns (actions: seq<Action>)
    requires Ready(m, w, -1)
    requires var run := m.runners[w].run;
             Scheduler.Allowed(run.config, run.config.maxParallelJobs, Scheduler.ViewOf(run.trace), e)
    ensures Possible(m, actions)
    ensures Ready(Run(m, actions), w, -1) && GoesOn(m, Run(m, actions), w, m.runners[w].run.trace + [e])
  {
    var n: World, before: seq<Action>, spare: int := m, [], -1;
    if e.Finish? && !e.outcome.Panicked? {
      before := ClosureHappens(m, w, e.job, e.outcome.Completed?);
      n, spare := Run(m, before), e.job;
    }
    ObserveHappens(n, w, e, spare);
    OneAction(n, Observe(w, e));
    PossibleConcat(m, before, [Observe(w, e)]);
    actions := before + [Observe(w, e)];
  }

  lemma NextEventHappens(m: World, before: seq<Action>, w: nat, t: seq<Scheduler.Event>, e: Scheduler.Event)
    returns (actions: seq<Action>)
    requires Ready(m, w, -1) && Possible(m, before) && Ready(Run(m, before), w, -1) && GoesOn(m, Run(m, before), w, t)
    requires var c := m.runners[w].run.config; Scheduler.Allowed(c, c.maxParallelJobs, Scheduler.ViewOf(t), e)
    ensures Possible(m, actions)
    ensures Ready(Run(m, actions), w, -1) && GoesOn(m, Run(m, actions), w, t + [e])
  {
    var last := EventHappens(Run(m, before), w, e);
    PossibleConcat(m, before, last);
    actions := before + last;
  }

  /** And so for every legal trace, event by event. */
  lemma {:induction false} TraceHappens(m: World, w: nat, t: seq<Scheduler.Event>) returns (actions: seq<Action>)
    requires Ready(m, w, -1) && m.runners[w].run.trace == []
    requires Scheduler.Legal(m.runners[w].run.config, m.runners[w].run.config.maxParallelJobs, t)
    ensures Possible(m, actions)
    ensures Ready(Run(m, actions), w, -1) && GoesOn(m, Run(m, actions), w, t)
    decreases |t|
  {
    actions := [];
    if t != [] {
      var before := TraceHappens(m, w, t[..|t|-1]);
      actions := NextEventHappens(m, before, w, t[..|t|-1], t[|t|-1]);
      assert t[..|t|-1] + [t[|t|-1]] == t;
    }
  }

  // ---------- up to the end of the pipeline ----------

  /** The report arrives in time and ends the pipeline. */
  lemma EndHappens(m: World, w: nat, success: bool) returns (actions: seq<Action>)
    requires IsExecuting(m, w) && !m.runners[w].run.Reporting? && Queue.Active(m.db, m.runners[w].pipeline, w)
    requires MayEnd(m.runners[w].run, success)
    ensures Possible(m, actions)
    ensures var (p, end) := (m.runners[w].pipeline, Run(m, actions).db);
            p < |end.pipelines| && end.pipelines[p].status == if success then Queue.Succeeded else Queue.Failed
  {
    var a, b := EndRun(w, success), DeliverReport(Report(m.runners[w].pipeline, w, success));
    OneAction(m, a);
    OneAction(Next(m, a), b);
    PossibleConcat(m, [a], [b]);
    actions := [a] + [b];
  }

  /**
   * Whatever the scheduler may do with the jobs of a pipeline that is held, the system can do, and the pipeline then
   * ends as succeeded when all its jobs completed, and as failed otherwise.
   */
  lemma EveryTraceHappens(m: World, w: nat, t: seq<Scheduler.Event>) returns (actions: seq<Action>)
    requires Ready(m, w, -1) && m.runners[w].run.trace == []
    requires Scheduler.Legal(m.runners[w].run.config, m.runners[w].run.config.maxParallelJobs, t)
    ensures Possible(m, actions)
    ensures var (p, end) := (m.runners[w].pipeline, Run(m, actions).db);
            && p < |end.pipelines|
            && end.pipelines[p].status
               == if Scheduler.ViewOf(t).done == Topo.Below(|m.runners[w].run.config.jobs|) then Queue.Succeeded
                  else Queue.Failed
  {
    var before := TraceHappens(m, w, t);
    var success := Scheduler.ViewOf(t).done == Topo.Below(|m.runners[w].run.config.jobs|);
    var last := EndHappens(Run(m, before), w, success);
    PossibleConcat(m, before, last);
    actions := before + last;
  }

  /** A runner whose creation call fails gives up, and its report ends the pipeline as failed, if it is in time. */
  lemma GivingUpEndsFailed(m: World, w: nat, c: Config.PipelineConfig)
    requires IsPreparing(m, w) && Queue.Active(m.db, m.runners[w].pipeline, w)
    ensures var p := m.runners[w].pipeline;
            var actions := [LoseCreateJobs(w, c), DeliverReport(Report(p, w, false))];
            && Possible(m, actions) && p < |Run(m, actions).db.pipelines|
            && Run(m, actions).db.pipelines[p].status == Queue.Failed
  {
    var a, b := LoseCreateJobs(w, c), DeliverReport(Report(m.runners[w].pipeline, w, false));
    OneAction(m, a);
    OneAction(Next(m, a), b);
    PossibleConcat(m, [a], [b]);
    assert [a] + [b] == [a, b];
  }

  /** The next request of the runner decides what it gets, and from there any run of its jobs is possible. */
  lemma EveryGivenPipelineCanRun(l: Config.Limits, m: World, w: nat, p: nat, newId: nat, read: Config.PipelineConfig,
                                 v: Config.PipelineConfig, t: seq<Scheduler.Event>)
    returns (actions: seq<Action>)
    requires Completion.Consistent(m) && EndToEnd.SpecsValidated(l, m.db) && IsPolling(m, w) && newId !in m.issued
    requires Queue.Claim(m.db, w, Some(m.runners[w].request), true).1 == Some(p)
    requires p < |m.db.pipelines| && Config.IsValidation(l, Queue.UsedConfig(m.db.pipelines[p], read), Ok(v))
    requires Scheduler.Consistent(v) && Scheduler.Legal(v, v.maxParallelJobs, t)
    ensures Possible(m, actions)
    ensures var end := Run(m, actions).db;
            && p < |end.pipelines|
            && end.pipelines[p].status
               == if Scheduler.ViewOf(t).done == Topo.Below(|v.jobs|) then Queue.Succeeded else Queue.Failed
  {
    var answered := AnswerHappens(m, w, p, newId);
    var one := Run(m, answered);
    Completion.RunKeepsConsistent(m, answered);
    SpecsStay(l, m, w, p);
    var created := CreationHappens(l, one, w, read, v);
    var two := Run(one, created);
    var traced := EveryTraceHappens(two, w, t);
    PossibleConcat(one, created, traced);
    PossibleConcat(m, answered, created + traced);
    actions := answered + (created + traced);
  }

  lemma SpecsStay(l: Config.Limits, m: World, w: nat, p: nat)
    requires EndToEnd.SpecsValidated(l, m.db) && IsPolling(m, w) && p < |m.db.pipelines|
    ensures var after := Queue.Claim(m.db, w, Some(m.runners[w].request), true).0;
            && EndToEnd.SpecsValidated(l, after) && p < |after.pipelines|
            && after.pipelines[p].spec == m.db.pipelines[p].spec
  {
    var s := QueueRuns.ClaimStep(w, Some(m.runners[w].request), true);
    EndToEnd.StepKeepsSpecs(l, m.db, s);
    QueueRuns.StepKeepsRows(m.db, s);
    QueueRuns.RowStepIsLater(m.db.pipelines[p], QueueRuns.Apply(m.db, s).pipelines[p], m.db.now);
  }
}
