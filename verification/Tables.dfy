/** What the tables keep over every run: unique indexes, log lines, leases and runners (src/ci/db.rs, migrations). */
module Tables {
  import opened Wrappers
  import opened Config
  import opened Queue
  import opened QueueRuns

  // ---------- rows of the queue ----------

  /** Two rows that the primary key and the two unique indexes admit side by side. */
  predicate Apart(a: Pipeline, b: Pipeline) {
    && a.uuid != b.uuid
    && !(a.name.Some? && a.name == b.name && a.origin.group.Some? && a.origin.group == b.origin.group)
    && !(a.name.Some? && a.name == b.name && a.pushed && b.pushed && a.origin.branch.Some?
         && a.origin.branch == b.origin.branch && a.origin.repository == b.origin.repository
         && a.origin.revision == b.origin.revision)
  }

  predicate RowsApart(rows: seq<Pipeline>) {
    forall i, j | 0 <= i < j < |rows| :: Apart(rows[i], rows[j])
  }

  /** The row of a submission. */
  predicate IsNewRow(row: Pipeline, s: Submission, now: nat) {
    && row.origin == s.origin && row.name == s.name && row.needs == s.needs && row.os == s.os && row.spec == s.spec
    && row.pushed == s.pushed && row.uuid == s.uuid && row.createdAt == now
    && row.status.Queued? && row.worker.None? && row.request.None? && row.lease.None? && !row.cancelRequested
  }

  /** A submission is refused exactly when its row could not stand beside the others; otherwise it is queued now. */
  lemma SubmitsExactlyWhenApart(db: Db, s: Submission, row: Pipeline)
    requires RowsApart(db.pipelines) && IsNewRow(row, s, db.now)
    ensures Submit(db, s)
         == if RowsApart(db.pipelines + [row]) then db.(pipelines := db.pipelines + [row]) else db
  {
    assert row == SubmittedRow(s, db.now);
    var after := db.pipelines + [row];
    if Rejects(db, s) {
      var i :| 0 <= i < |db.pipelines| && Collides(db.pipelines[i], s);
      assert !Apart(after[i], after[|db.pipelines|]);
    } else {
      forall i, j | 0 <= i < j < |after|
        ensures Apart(after[i], after[j])
      {
        assert j == |db.pipelines| ==> !Collides(db.pipelines[i], s);
      }
    }
  }

  lemma StepKeepsRowsApart(db: Db, s: Step)
    requires RowsApart(db.pipelines)
    ensures RowsApart(Apply(db, s).pipelines)
  {
    var after := Apply(db, s).pipelines;
    StepKeepsRows(db, s);
    if |after| > |db.pipelines| {
      SubmitsExactlyWhenApart(db, s.submission, SubmittedRow(s.submission, db.now));
    } else {
      forall i, j | 0 <= i < j < |after|
        ensures Apart(after[i], after[j])
      {
        RowStepIsLater(db.pipelines[i], after[i], db.now);
        RowStepIsLater(db.pipelines[j], after[j], db.now);
        assert Apart(db.pipelines[i], db.pipelines[j]);
      }
    }
  }

  // ---------- jobs ----------

  /** Positions and names are unique within a pipeline. */
  predicate JobsApart(jobs: seq<Job>) {
    forall k, m | 0 <= k < m < |jobs| && jobs[k].pipeline == jobs[m].pipeline ::
      jobs[k].position != jobs[m].position && jobs[k].name != jobs[m].name
  }

  /** One queued job of p for each of the configuration, in its order. */
  predicate AreNewJobs(jobs: seq<Job>, p: nat, c: PipelineConfig) {
    && |jobs| == |c.jobs|
    && forall k | 0 <= k < |jobs| ::
         && jobs[k].pipeline == p && jobs[k].position == k && jobs[k].status.JobQueued?
         && jobs[k].name == c.jobs[k].name && jobs[k].stage == c.jobs[k].stage
  }

  lemma CollidingJobs(jobs: seq<Job>, added: seq<Job>, p: nat, c: PipelineConfig)
    requires AreNewJobs(added, p, c) && JobsCollide(jobs, p, c)
    ensures !JobsApart(jobs + added)
  {
    var all := jobs + added;
    if a, b :| 0 <= a < b < |c.jobs| && c.jobs[a].name == c.jobs[b].name {
      assert all[|jobs| + a].name == all[|jobs| + b].name;
    } else {
      var k :| 0 <= k < |jobs| && jobs[k].pipeline == p
               && (jobs[k].position < |c.jobs| || jobs[k].name in Names(c.jobs));
      var m := if jobs[k].position < |c.jobs| then jobs[k].position else IndexOf(Names(c.jobs), jobs[k].name);
      assert all[k] == jobs[k] && all[|jobs| + m] == added[m];
    }
  }

  lemma FreshJobsAreApart(jobs: seq<Job>, added: seq<Job>, p: nat, c: PipelineConfig)
    requires AreNewJobs(added, p, c) && !JobsCollide(jobs, p, c) && JobsApart(jobs)
    ensures JobsApart(jobs + added)
  {
    var all := jobs + added;
    forall k, m | 0 <= k < m < |all| && all[k].pipeline == all[m].pipeline
      ensures all[k].position != all[m].position && all[k].name != all[m].name
    {
      if m >= |jobs| {
        var b := m - |jobs|;
        assert all[m] == added[b] && Names(c.jobs)[b] == added[b].name;
        if k >= |jobs| {
          assert all[k] == added[k - |jobs|];
        } else {
          assert all[k] == jobs[k];
        }
      } else {
        assert all[k] == jobs[k] && all[m] == jobs[m];
      }
    }
  }

  /**
   * The active holder's jobs are created, from the stored specification where there is one, exactly when they are
   * apart from each other and from all others; nobody else's are.
   */
  lemma CreatesExactlyWhenApart(db: Db, p: nat, w: nat, sent: PipelineConfig, added: seq<Job>)
    requires JobsApart(db.jobs) && p < |db.pipelines|
    requires AreNewJobs(added, p, if db.pipelines[p].spec.Some? then db.pipelines[p].spec.value else sent)
    ensures CreateJobs(db, p, w, sent)
         == if Active(db, p, w) && JobsApart(db.jobs + added)
            then (db.(jobs := db.jobs + added), Some(added)) else (db, None)
  {
    var c := UsedConfig(db.pipelines[p], sent);
    assert added == NewJobs(p, c);
    if JobsCollide(db.jobs, p, c) {
      CollidingJobs(db.jobs, added, p, c);
    } else {
      FreshJobsAreApart(db.jobs, added, p, c);
    }
  }

  predicate JobsStay(before: seq<Job>, after: seq<Job>) {
    |before| <= |after| && forall k | 0 <= k < |before| :: after[k] == before[k].(status := after[k].status)
  }

  lemma StepKeepsJobs(db: Db, s: Step)
    ensures JobsStay(db.jobs, Apply(db, s).jobs)
    ensures |Apply(db, s).jobs| > |db.jobs| ==> s.CreateJobsStep?
    ensures s.CreateJobsStep? || |Apply(db, s).jobs| == |db.jobs|
  {
  }

  lemma StepKeepsJobsApart(db: Db, s: Step)
    requires JobsApart(db.jobs)
    ensures JobsApart(Apply(db, s).jobs)
  {
    StepKeepsJobs(db, s);
    if |Apply(db, s).jobs| > |db.jobs| {
      var c := UsedConfig(db.pipelines[s.pipeline], s.config);
      FreshJobsAreApart(db.jobs, NewJobs(s.pipeline, c), s.pipeline, c);
    }
  }

  // ---------- log lines ----------

  /** The line belongs to a pipeline that was started, and to one of its jobs if it names one. */
  predicate LineFits(db: Db, line: LogLine) {
    && line.pipeline < |db.pipelines| && db.pipelines[line.pipeline].worker.Some?
    && (line.job.Some? ==> line.job.value < |db.jobs| && db.jobs[line.job.value].pipeline == line.pipeline)
  }

  predicate LogsFit(db: Db) {
    forall k | 0 <= k < |db.logs| :: LineFits(db, db.logs[k])
  }

  lemma StepKeepsLine(db: Db, s: Step, line: LogLine)
    requires LineFits(db, line)
    ensures LineFits(Apply(db, s), line)
  {
    StepKeepsRows(db, s);
    StepKeepsJobs(db, s);
    assert RowStep(db.pipelines[line.pipeline], Apply(db, s).pipelines[line.pipeline], db.now);
  }

  lemma StepKeepsLogs(db: Db, s: Step)
    requires LogsFit(db)
    ensures db.logs <= Apply(db, s).logs && LogsFit(Apply(db, s))
  {
    var after := Apply(db, s);
    assert s.LogStep? || after.logs == db.logs;
    forall k | 0 <= k < |after.logs|
      ensures LineFits(after, after.logs[k])
    {
      if k < |db.logs| {
        StepKeepsLine(db, s, db.logs[k]);
      }
    }
  }

  // ---------- all of it, over every run ----------

  predicate Tidy(db: Db) {
    RowsApart(db.pipelines) && JobsApart(db.jobs) && LogsFit(db)
  }

  /** No run ever has two rows, jobs or positions that exclude each other, or a line of a job of another pipeline. */
  lemma {:induction false} RunKeepsTidy(db: Db, steps: seq<Step>)
    requires Tidy(db)
    ensures Tidy(Run(db, steps)) && db.logs <= Run(db, steps).logs && JobsStay(db.jobs, Run(db, steps).jobs)
    decreases steps
  {
    if steps != [] {
      StepKeepsRowsApart(db, steps[0]);
      StepKeepsJobsApart(db, steps[0]);
      StepKeepsJobs(db, steps[0]);
      StepKeepsLogs(db, steps[0]);
      RunKeepsTidy(Apply(db, steps[0]), steps[1..]);
    }
  }

  /** A line of the active holder about its own jobs is appended, and stays where it is in every later state. */
  lemma HolderLineIsKept(db: Db, w: nat, line: LogLine, later: seq<Step>)
    requires Tidy(db) && Active(db, line.pipeline, w)
    requires line.job.Some? ==> line.job.value < |db.jobs| && db.jobs[line.job.value].pipeline == line.pipeline
    ensures var end := Run(Apply(db, LogStep(w, line)), later); |db.logs| < |end.logs| && end.logs[|db.logs|] == line
  {
    var next := Apply(db, LogStep(w, line));
    StepKeepsLogs(db, LogStep(w, line));
    assert next.logs[|db.logs|] == line;
    RunKeepsTidy(next, later);
  }

  // ---------- leases ----------

  predicate IsReportOf(s: Step, p: nat, w: nat) {
    s.FinishStep? && s.pipeline == p && s.worker == w
  }

  lemma ClosingKeepsHeld(db: Db, s: Step, p: nat, w: nat)
    requires Holds(db, p, w) && !IsReportOf(s, p, w) && (s.FinishStep? || s.ReapStep?)
    ensures p < |Apply(db, s).pipelines| && Apply(db, s).pipelines[p] == db.pipelines[p]
  {
  }

  /** Before its lease ends only the holder's own report ends a pipeline, and no step shortens the lease. */
  lemma StepKeepsHeld(db: Db, s: Step, p: nat, w: nat)
    requires Sound(db) && Holds(db, p, w) && !IsReportOf(s, p, w) && Apply(db, s).now < db.pipelines[p].lease.value
    ensures Holds(Apply(db, s), p, w) && db.pipelines[p].lease.value <= Apply(db, s).pipelines[p].lease.value
  {
    assert RowOk(db.pipelines[p], db.now);
    if s.FinishStep? || s.ReapStep? {
      ClosingKeepsHeld(db, s, p, w);
    } else {
      StepKeepsRows(db, s);
      OnlyClosingEnds(db, s, p);
      assert RowStep(db.pipelines[p], Apply(db, s).pipelines[p], db.now);
    }
  }

  /** So a pipeline stays with its holder until the lease ends, whatever claims, reaps and cancels happen meanwhile. */
  lemma {:induction false} HeldUntilLeaseEnds(db: Db, steps: seq<Step>, p: nat, w: nat)
    requires Sound(db) && Holds(db, p, w) && Run(db, steps).now < db.pipelines[p].lease.value
    requires forall k | 0 <= k < |steps| :: !IsReportOf(steps[k], p, w)
    ensures Holds(Run(db, steps), p, w)
    decreases steps
  {
    if steps != [] {
      var next := Apply(db, steps[0]);
      RunKeepsRows(next, steps[1..]);
      StepKeepsHeld(db, steps[0], p, w);
      StepKeepsSound(db, steps[0]);
      HeldUntilLeaseEnds(next, steps[1..], p, w);
    }
  }

  /** A heartbeat of the active holder makes that a whole lease from now on. */
  lemma HeartbeatHoldsOn(db: Db, steps: seq<Step>, p: nat, w: nat)
    requires Sound(db) && Active(db, p, w) && Run(Heartbeat(db, p, w), steps).now < db.now + LEASE_SECONDS
    requires forall k | 0 <= k < |steps| :: !IsReportOf(steps[k], p, w)
    ensures Holds(Run(Heartbeat(db, p, w), steps), p, w)
  {
    StepKeepsSound(db, HeartbeatStep(p, w));
    HeldUntilLeaseEnds(Heartbeat(db, p, w), steps, p, w);
  }

  // ---------- first come, first served ----------

  /** Asks for nothing that could make it wait. */
  predicate IsFree(s: Submission) {
    s.needs == [] && s.os.None? && s.spec.None?
  }

  /** Of two free submissions at different times, with anything in between and after, the earlier starts first. */
  lemma EarlierSubmittedStartsFirst(db: Db, first: Submission, between: seq<Step>, second: Submission, later: seq<Step>)
    requires IsFree(first) && IsFree(second)
    requires var one := Submit(db, first); var two := Run(one, between);
             one != db && Submit(two, second) != two && db.now < two.now
    ensures var two := Run(Submit(db, first), between);
            var (end, i, j) := (Run(Submit(two, second), later), |db.pipelines|, |two.pipelines|);
            && i < j < |end.pipelines|
            && (end.pipelines[j].worker.Some? ==> !end.pipelines[i].status.Queued?)
  {
    var one := Submit(db, first);
    var two := Run(one, between);
    var i := |db.pipelines|;
    assert !Rejects(db, first) && !Rejects(two, second);
    assert FreeRow(one.pipelines[i]);
    RunKeepsRows(one, between);
    assert Later(one.pipelines[i], two.pipelines[i]);
    FreeRowStaysInRun(one, between, i);
    RunKeepsRows(Submit(two, second), later);
    if two.pipelines[i].status.Queued? {
      EarlierStartsFirst(Submit(two, second), later, i, |two.pipelines|);
    } else {
      assert Later(two.pipelines[i], Run(Submit(two, second), later).pipelines[i]);
    }
  }

  lemma {:induction false} FreeRowStaysInRun(db: Db, steps: seq<Step>, i: nat)
    requires i < |db.pipelines| && FreeRow(db.pipelines[i])
    ensures i < |Run(db, steps).pipelines|
    ensures Run(db, steps).pipelines[i].status.Queued? ==> Run(db, steps).pipelines[i] == db.pipelines[i]
    decreases steps
  {
    if steps != [] {
      var next := Apply(db, steps[0]);
      FreeRowStays(db, steps[0], i);
      RunKeepsRows(next, steps[1..]);
      assert Later(next.pipelines[i], Run(next, steps[1..]).pipelines[i]);
      if next.pipelines[i].status.Queued? {
        FreeRowStaysInRun(next, steps[1..], i);
      }
    }
  }

  // ---------- runners ----------

  /** The runner was heard of and has not said goodbye. */
  predicate IsPresent(db: Db, w: nat, since: nat) {
    w in db.runners && !db.runners[w].stopped && since <= db.runners[w].lastSeen
  }

  lemma StepKeepsPresent(db: Db, s: Step, w: nat, since: nat)
    requires IsPresent(db, w, since) && since <= db.now && s != StopStep(w) && db.now <= since + PRESENCE_SECONDS
    ensures IsPresent(Apply(db, s), w, since)
  {
  }

  /** A runner that was heard of within the presence time, and was not stopped, is still registered. */
  lemma {:induction false} PresentRunnerStays(db: Db, steps: seq<Step>, w: nat, since: nat)
    requires IsPresent(db, w, since) && since <= db.now && StopStep(w) !in steps
    requires Run(db, steps).now <= since + PRESENCE_SECONDS
    ensures IsPresent(Run(db, steps), w, since)
    decreases steps
  {
    if steps != [] {
      RunKeepsRows(Apply(db, steps[0]), steps[1..]);
      StepKeepsRows(db, steps[0]);
      StepKeepsPresent(db, steps[0], w, since);
      PresentRunnerStays(Apply(db, steps[0]), steps[1..], w, since);
    }
  }

  /** Registering or asking for work makes a known runner present. */
  lemma HeardIsPresent(db: Db, w: nat, os: string)
    ensures IsPresent(Register(db, w, os), w, db.now) && Register(db, w, os).runners[w].os == os
    ensures w in db.runners ==> IsPresent(Touch(db, w), w, db.now) && Touch(db, w).runners[w].os == db.runners[w].os
    ensures w !in db.runners ==> Touch(db, w) == db
  {
  }

  predicate IsIdle(db: Db, w: nat) {
    forall p | 0 <= p < |db.pipelines| && db.pipelines[p].status.Running? :: db.pipelines[p].worker != Some(w)
  }

  /** An idle runner can be removed as soon as it has stopped, otherwise exactly when its presence time is over. */
  lemma IdleRunnerIsRemovable(db: Db, w: nat, os: string, seconds: nat)
    requires IsIdle(db, w)
    ensures w in db.runners ==> w !in Remove(Stop(db, w), w).runners
    ensures w !in Remove(Apply(Register(db, w, os), Tick(seconds)), w).runners <==> seconds > PRESENCE_SECONDS
    ensures forall v | v != w :: v in Remove(db, w).runners <==> v in db.runners
  {
  }

  /** The runner of a running pipeline is never removed. */
  lemma BusyRunnerStays(db: Db, p: nat, w: nat)
    requires p < |db.pipelines| && db.pipelines[p].status.Running? && db.pipelines[p].worker == Some(w)
    ensures Remove(db, w) == db
  {
  }

  /** A stopped runner, until it is heard of again, is given no pipeline that asks for an operating system. */
  lemma StoppedRunnerGetsNoOs(db: Db, w: nat, s: Step, p: nat)
    requires p < |db.pipelines| && db.pipelines[p].os.Some?
    requires Starts(db.pipelines[p], Apply(Stop(db, w), s).pipelines[p])
    ensures Apply(Stop(db, w), s).pipelines[p].worker != Some(w)
  {
    StartsByClaim(Stop(db, w), s, p);
    ClaimPicksOldestFit(Stop(db, w), s.worker, s.request, s.supportsSpec, p);
    assert FailDependents(db.pipelines)[p] == FailIfDead(db.pipelines, db.pipelines[p]);
  }

  /** The maintenance switch of a known runner is the one that was set last; restarts and stops leave it alone. */
  lemma {:induction false} SwitchLasts(db: Db, w: nat, draining: bool, later: seq<Step>)
    requires w in db.runners && RemoveStep(w) !in later && DrainStep(w, !draining) !in later
    ensures w in Run(Apply(db, DrainStep(w, draining)), later).runners
    ensures Run(Apply(db, DrainStep(w, draining)), later).runners[w].draining == draining
  {
    SwitchStays(Apply(db, DrainStep(w, draining)), w, draining, later);
  }

  lemma {:induction false} SwitchStays(db: Db, w: nat, draining: bool, later: seq<Step>)
    requires w in db.runners && db.runners[w].draining == draining
    requires RemoveStep(w) !in later && DrainStep(w, !draining) !in later
    ensures w in Run(db, later).runners && Run(db, later).runners[w].draining == draining
    decreases later
  {
    if later != [] {
      var next := Apply(db, later[0]);
      assert w in next.runners && next.runners[w].draining == draining;
      SwitchStays(next, w, draining, later[1..]);
    }
  }
}
