/** Whole runs of runners, network and queue, together with validation and with run groups. */
module EndToEnd {
  import opened Wrappers
  import opened Config
  import opened Protocol
  import G = Graph
  import Queue
  import QueueRuns
  import RunGroups
  import Scheduler
  import Completion
  import Settings

  // ---------- an action is a step of the queue ----------

  /** No action submits a row of the group. */
  predicate Sealed(actions: seq<Action>, o: Queue.Origin) {
    forall k | 0 <= k < |actions| && actions[k].Environment? && actions[k].step.SubmitStep? ::
      actions[k].step.submission.origin != o
  }

  /** What a run does to the tables is a run of the queue; submissions of the group come from the environment only. */
  lemma {:induction false} RunIsQueueRun(m: World, actions: seq<Action>, o: Queue.Origin)
    returns (steps: seq<QueueRuns.Step>)
    requires Possible(m, actions) && Sealed(actions, o)
    ensures Run(m, actions).db == QueueRuns.Run(m.db, steps) && RunGroups.Sealed(steps, o)
    decreases actions
  {
    if actions == [] {
      steps := [];
    } else {
      var first := ActionIsQueueStep(m, actions[0]);
      var rest := RunIsQueueRun(Next(m, actions[0]), actions[1..], o);
      steps := [first] + rest;
    }
  }

  // ---------- what a pipeline rests on is complete ----------

  lemma BegunIsStarted(m: World, p: nat)
    requires Completion.Consistent(m) && Completion.HasBegun(m, p)
    ensures RunGroups.Started(m.db, p)
  {
    var k :| 0 <= k < |m.begun| && m.begun[k].pipeline == p;
    assert AssignedTo(m.db, m.begun[k].pipeline, m.begun[k].worker, m.begun[k].request);
  }

  lemma SucceededIsComplete(m: World, p: nat)
    requires Completion.Consistent(m) && RunGroups.HasSucceeded(m.db, p)
    ensures Completion.AllSucceeded(m.db, p)
  {
    assert Completion.SuccessReported(m.reports, p);
    var r :| r in m.reports && r.pipeline == p && r.success;
    assert Completion.ReportOk(m, r);
  }

  /**
   * In every reachable world: once a pipeline of a group began, everything it reaches through present needs
   * has jobs, and every one of them is recorded as succeeded.
   */
  lemma BegunNeedsAreComplete(before: seq<Action>, after: seq<Action>, o: Queue.Origin, i: nat, y: nat)
    requires Possible(INITIAL, before) && Possible(Run(INITIAL, before), after) && Sealed(after, o)
    requires RunGroups.FreshGroup(Run(INITIAL, before).db, o)
    requires G.Reaches(RunGroups.GroupGraph(Run(INITIAL, before).db.pipelines, o), i, y) && y != i
    requires Completion.HasBegun(Run(Run(INITIAL, before), after), i)
    ensures Completion.AllSucceeded(Run(Run(INITIAL, before), after).db, y)
  {
    Completion.RunKeepsConsistent(INITIAL, before);
    NeedsAfterRun(Run(INITIAL, before), after, o, i, y);
  }

  lemma NeedsAfterRun(m: World, after: seq<Action>, o: Queue.Origin, i: nat, y: nat)
    requires Completion.Consistent(m) && Possible(m, after) && Sealed(after, o) && RunGroups.FreshGroup(m.db, o)
    requires G.Reaches(RunGroups.GroupGraph(m.db.pipelines, o), i, y) && y != i
    requires Completion.HasBegun(Run(m, after), i)
    ensures Completion.AllSucceeded(Run(m, after).db, y)
  {
    Completion.RunKeepsConsistent(m, after);
    var steps := RunIsQueueRun(m, after, o);
    NeedsInWorld(m.db, Run(m, after), steps, o, i, y);
  }

  lemma NeedsInWorld(db: Db, n: World, steps: seq<QueueRuns.Step>, o: Queue.Origin, i: nat, y: nat)
    requires RunGroups.FreshGroup(db, o) && RunGroups.Sealed(steps, o) && n.db == QueueRuns.Run(db, steps)
    requires G.Reaches(RunGroups.GroupGraph(db.pipelines, o), i, y) && y != i
    requires Completion.Consistent(n) && Completion.HasBegun(n, i)
    ensures Completion.AllSucceeded(n.db, y)
  {
    BegunIsStarted(n, i);
    RunGroups.StartedNeedsSucceeded(db, steps, o, i, y);
    SucceededIsComplete(n, y);
  }

  // ---------- the check of the job list never fails ----------

  /** Every frozen specification in the tables is validated. */
  ghost predicate SpecsValidated(l: Limits, db: Db) {
    forall p | 0 <= p < |db.pipelines| && db.pipelines[p].spec.Some? :: Validated(l, db.pipelines[p].spec.value)
  }

  ghost predicate SubmitsValidated(l: Limits, actions: seq<Action>) {
    forall k | 0 <= k < |actions| && actions[k].Environment? && actions[k].step.SubmitStep? ::
      actions[k].step.submission.spec.Some? ==> Validated(l, actions[k].step.submission.spec.value)
  }

  lemma StepKeepsSpecs(l: Limits, db: Db, s: QueueRuns.Step)
    requires SpecsValidated(l, db)
    requires s.SubmitStep? && s.submission.spec.Some? ==> Validated(l, s.submission.spec.value)
    ensures SpecsValidated(l, QueueRuns.Apply(db, s))
  {
    QueueRuns.StepKeepsRows(db, s);
    var after := QueueRuns.Apply(db, s);
    forall p | 0 <= p < |after.pipelines| && after.pipelines[p].spec.Some?
      ensures Validated(l, after.pipelines[p].spec.value)
    {
      if p < |db.pipelines| {
        QueueRuns.RowStepIsLater(db.pipelines[p], after.pipelines[p], db.now);
      }
    }
  }

  lemma {:induction false} RunKeepsSpecs(l: Limits, m: World, actions: seq<Action>)
    requires Possible(m, actions) && SpecsValidated(l, m.db) && SubmitsValidated(l, actions)
    ensures SpecsValidated(l, Run(m, actions).db)
    decreases actions
  {
    if actions != [] {
      var s := ActionIsQueueStep(m, actions[0]);
      StepKeepsSpecs(l, m.db, s);
      RunKeepsSpecs(l, Next(m, actions[0]), actions[1..]);
    }
  }

  lemma ValidatedMayRun(l: Limits, c: PipelineConfig)
    requires Validated(l, c)
    ensures Scheduler.Consistent(c) && c.jobs != []
  {
    assert JobsOk(l, c);
    forall k | 0 <= k < |c.jobs|
      ensures c.jobs[k].stage in c.stages
    {
      assert JobOk(l, c, c.jobs[k]);
    }
  }

  /**
   * In every reachable world: a runner that sends its validated configuration goes on to work exactly when it
   * still is the active holder. The check that the coordinator lists the jobs in the runner's order never fails.
   */
  lemma OrderCheckNeverFails(l: Limits, actions: seq<Action>, w: nat, read: PipelineConfig, v: PipelineConfig,
                             resent: Result<PipelineConfig, ConfigError>)
    requires Possible(INITIAL, actions) && SubmitsValidated(l, actions) && IsPreparing(Run(INITIAL, actions), w)
    requires var m := Run(INITIAL, actions); var p := m.runners[w].pipeline;
             p < |m.db.pipelines| ==> IsValidation(l, Queue.UsedConfig(m.db.pipelines[p], read), Ok(v))
    requires IsValidation(l, v, resent)
    ensures resent == Ok(v) && Enabled(Run(INITIAL, actions), CreateJobs(w, v))
    ensures var m := Run(INITIAL, actions);
            Next(m, CreateJobs(w, v)).runners[w].run.Working? <==> Queue.Active(m.db, m.runners[w].pipeline, w)
  {
    var m := Run(INITIAL, actions);
    Completion.RunKeepsConsistent(INITIAL, actions);
    RunKeepsSpecs(l, INITIAL, actions);
    PreparingHasNoJobs(m, w);
    OrderCheckInWorld(l, m, w, read, v, resent);
  }

  lemma OrderCheckInWorld(l: Limits, m: World, w: nat, read: PipelineConfig, v: PipelineConfig,
                          resent: Result<PipelineConfig, ConfigError>)
    requires SpecsValidated(l, m.db) && IsPreparing(m, w)
    requires m.runners[w].pipeline < |m.db.pipelines| && Completion.NoJobs(m.db, m.runners[w].pipeline)
    requires IsValidation(l, Queue.UsedConfig(m.db.pipelines[m.runners[w].pipeline], read), Ok(v))
    requires IsValidation(l, v, resent)
    ensures resent == Ok(v) && Enabled(m, CreateJobs(w, v))
    ensures Next(m, CreateJobs(w, v)).runners[w].run.Working? <==> Queue.Active(m.db, m.runners[w].pipeline, w)
  {
    var p := m.runners[w].pipeline;
    Settings.ResentIsFixed(l, Queue.UsedConfig(m.db.pipelines[p], read), v, resent);
    ValidatedMayRun(l, v);
    if Queue.Active(m.db, p, w) {
      Settings.JobListHandshake(l, m.db, p, w, read, v, resent);
    }
  }

  lemma PreparingHasNoJobs(m: World, w: nat)
    requires Completion.Consistent(m) && IsPreparing(m, w)
    ensures m.runners[w].pipeline < |m.db.pipelines| && Completion.NoJobs(m.db, m.runners[w].pipeline)
  {
    assert Completion.RunnerOk(m, w);
    var k :| 0 <= k < |m.begun| && m.begun[k].pipeline == m.runners[w].pipeline && m.begun[k].worker == w;
    assert AssignedTo(m.db, m.begun[k].pipeline, m.begun[k].worker, m.begun[k].request);
  }
}
