/** The bounded parallel job scheduler with stage barriers (src/runner/scheduler.rs). */
module Scheduler {
  import opened Wrappers
  import opened Graph
  import opened Topo
  import opened Config

  datatype JobOutcome = Completed | JobFailed | Panicked

  /** What an observer of one run sees. Drain is the join of a job after the run was stopped. */
  datatype Event = Start(job: nat) | Finish(job: nat, outcome: JobOutcome) | CancelSeen | Drain(job: nat)

  datatype RunResult = Succeeded | InvalidConcurrency | Canceled | JobError(job: nat) | NoProgress

  // ---------- the specification: which traces are legal ----------

  datatype View = View(started: set<nat>, running: set<nat>, done: set<nat>, stopped: bool)

  const INITIAL := View({}, {}, {}, false)

  function After(v: View, e: Event): View {
    match e
    case Start(i) => v.(started := v.started + {i}, running := v.running + {i})
    case Finish(i, outcome) =>
      if outcome == Completed then v.(running := v.running - {i}, done := v.done + {i})
      else v.(running := v.running - {i}, stopped := true)
    case CancelSeen => v.(stopped := true)
    case Drain(i) => v.(running := v.running - {i})
  }

  function ViewOf(t: seq<Event>): View {
    if t == [] then INITIAL else After(ViewOf(t[..|t|-1]), t[|t|-1])
  }

  /** Unique names and stages; needs may be arbitrary. */
  ghost predicate Consistent(c: PipelineConfig) {
    Staged(c) && NoDup(c.stages)
  }

  ghost predicate DoneName(c: PipelineConfig, done: set<nat>, n: string) {
    exists d: nat :: d in done && d < |c.jobs| && c.jobs[d].name == n
  }

  ghost predicate NeedsDone(c: PipelineConfig, done: set<nat>, i: nat)
    requires i < |c.jobs|
  {
    forall n | n in c.jobs[i].needs :: DoneName(c, done, n)
  }

  ghost predicate EarlierStagesDone(c: PipelineConfig, done: set<nat>, stage: nat)
    requires Consistent(c)
  {
    forall k: nat | k < |c.jobs| && StageIndex(c, c.jobs[k]) < stage :: k in done
  }

  /** Job i may start: not started yet, needs completed, every earlier stage completed. */
  ghost predicate Startable(c: PipelineConfig, v: View, i: int)
    requires Consistent(c)
  {
    && 0 <= i < |c.jobs| && i !in v.started && NeedsDone(c, v.done, i)
    && EarlierStagesDone(c, v.done, StageIndex(c, c.jobs[i]))
  }

  /** No capacity is wasted: it is used up, or nothing may start. */
  ghost predicate WorkConserving(c: PipelineConfig, limit: nat, v: View)
    requires Consistent(c)
  {
    |v.running| == limit || forall i :: !Startable(c, v, i)
  }

  /** Startable jobs are taken from the top of the list: none of the same stage is passed over. */
  ghost predicate FirstOfStage(c: PipelineConfig, v: View, i: nat)
    requires Consistent(c) && i < |c.jobs|
  {
    forall k | 0 <= k < i && Startable(c, v, k) :: c.jobs[k].stage != c.jobs[i].stage
  }

  ghost predicate Allowed(c: PipelineConfig, limit: nat, v: View, e: Event)
    requires Consistent(c)
  {
    match e
    case Start(i) => !v.stopped && |v.running| < limit && Startable(c, v, i) && FirstOfStage(c, v, i)
    case Finish(i, _) => !v.stopped && i in v.running && WorkConserving(c, limit, v)
    case CancelSeen => !v.stopped
    case Drain(i) => v.stopped && i in v.running
  }

  /** Every event is allowed after the events before it. */
  ghost predicate Legal(c: PipelineConfig, limit: nat, t: seq<Event>)
    requires Consistent(c)
  {
    t == [] || (Legal(c, limit, t[..|t|-1]) && Allowed(c, limit, ViewOf(t[..|t|-1]), t[|t|-1]))
  }

  // ---------- the scheduler ----------

  /** The scheduler's variables agree with what has happened. */
  ghost predicate Agrees(c: PipelineConfig, limit: nat, v: View, started: seq<bool>, running: set<nat>,
                         completed: set<string>)
  {
    && |started| == |c.jobs| && (forall i | 0 <= i < |c.jobs| :: started[i] <==> i in v.started)
    && running == v.running && CompletedAgrees(c, v.done, completed) && ViewOk(|c.jobs|, limit, v)
  }

  ghost predicate CompletedAgrees(c: PipelineConfig, done: set<nat>, completed: set<string>) {
    forall n :: n in completed <==> DoneName(c, done, n)
  }

  /** What was started runs or is done, as long as nothing failed; never more than the limit run. */
  ghost predicate ViewOk(jobs: nat, limit: nat, v: View) {
    && |v.running| <= limit && v.running <= v.started && v.done <= v.started && v.running !! v.done
    && (forall i | i in v.started :: i < jobs)
    && (!v.stopped ==> v.started == v.running + v.done)
  }

  /** The part of the rules about events that keeps the view in order. */
  predicate Orderly(jobs: nat, limit: nat, v: View, e: Event) {
    match e
    case Start(i) => i < jobs && i !in v.started && |v.running| < limit
    case Finish(i, _) => i in v.running
    case CancelSeen => true
    case Drain(i) => v.stopped && i in v.running
  }

  lemma StepKeepsView(jobs: nat, limit: nat, v: View, e: Event)
    requires ViewOk(jobs, limit, v) && Orderly(jobs, limit, v, e)
    ensures ViewOk(jobs, limit, After(v, e))
  {
    match e
    case Start(i) => StartKeepsView(jobs, limit, v, i);
    case Finish(i, outcome) => LeaveKeepsView(jobs, limit, v, i, outcome == Completed);
    case CancelSeen =>
    case Drain(i) => LeaveKeepsView(jobs, limit, v, i, false);
  }

  lemma StartKeepsView(jobs: nat, limit: nat, v: View, i: nat)
    requires ViewOk(jobs, limit, v) && i < jobs && i !in v.started && |v.running| < limit
    ensures ViewOk(jobs, limit, After(v, Start(i)))
  {
    if !v.stopped {
      assert v.started + {i} == (v.running + {i}) + v.done;
    }
  }

  /** A running job leaves: completed, or not, and then nothing more is started. */
  lemma LeaveKeepsView(jobs: nat, limit: nat, v: View, i: nat, completed: bool)
    requires ViewOk(jobs, limit, v) && i in v.running
    ensures ViewOk(jobs, limit, if completed then v.(running := v.running - {i}, done := v.done + {i})
                                else v.(running := v.running - {i}, stopped := true))
  {
    if !v.stopped && completed {
      assert v.started == (v.running - {i}) + (v.done + {i});
    }
  }

  /** No unstarted job of the stage below `bound` has all its needs completed. */
  ghost predicate NoneReady(c: PipelineConfig, v: View, stage: nat, bound: nat)
    requires stage < |c.stages|
  {
    forall i | 0 <= i < bound && i < |c.jobs| && c.jobs[i].stage == c.stages[stage] && i !in v.started ::
      !NeedsDone(c, v.done, i)
  }

  ghost predicate AllOfStage(c: PipelineConfig, jobs: set<nat>, stage: nat)
    requires stage < |c.stages|
  {
    forall i | i in jobs :: i < |c.jobs| && c.jobs[i].stage == c.stages[stage]
  }

  lemma StageIs(c: PipelineConfig, i: nat, stage: nat)
    requires Consistent(c) && i < |c.jobs| && stage < |c.stages|
    ensures c.jobs[i].stage == c.stages[stage] <==> StageIndex(c, c.jobs[i]) == stage
  {
  }

  lemma StartAllowed(c: PipelineConfig, limit: nat, stage: nat, v: View, i: nat)
    requires Consistent(c) && stage < |c.stages| && EarlierStagesDone(c, v.done, stage) && !v.stopped
    requires i < |c.jobs| && i !in v.started && c.jobs[i].stage == c.stages[stage] && NeedsDone(c, v.done, i)
    requires |v.running| < limit && NoneReady(c, v, stage, i)
    ensures Allowed(c, limit, v, Start(i))
    ensures NoneReady(c, After(v, Start(i)), stage, i + 1)
  {
    StageIs(c, i, stage);
  }

  lemma StartAgrees(c: PipelineConfig, limit: nat, v: View, started: seq<bool>, running: set<nat>,
                    completed: set<string>, i: nat)
    requires Agrees(c, limit, v, started, running, completed) && |running| < limit
    requires i < |c.jobs| && !started[i]
    ensures Agrees(c, limit, After(v, Start(i)), started[i := true], running + {i}, completed)
  {
    StepKeepsView(|c.jobs|, limit, v, Start(i));
  }

  /** A pass over the jobs below `index`: what it started, and that it left none ready. */
  ghost predicate Passing(c: PipelineConfig, limit: nat, stage: nat, trace: seq<Event>, v: View, started: seq<bool>,
                          running: set<nat>, completed: set<string>, done: set<nat>, index: nat)
    requires Consistent(c) && stage < |c.stages|
  {
    && Legal(c, limit, trace) && v == ViewOf(trace) && Agrees(c, limit, v, started, running, completed)
    && v.done == done && !v.stopped && AllOfStage(c, running, stage) && NoneReady(c, v, stage, index)
  }

  lemma PassingStarts(c: PipelineConfig, limit: nat, stage: nat, trace: seq<Event>, v: View, started: seq<bool>,
                      running: set<nat>, completed: set<string>, done: set<nat>, index: nat)
    requires Consistent(c) && stage < |c.stages| && EarlierStagesDone(c, done, stage)
    requires Passing(c, limit, stage, trace, v, started, running, completed, done, index)
    requires |running| < limit && index < |c.jobs| && !started[index] && c.jobs[index].stage == c.stages[stage]
    requires NeedsDone(c, done, index)
    ensures Passing(c, limit, stage, trace + [Start(index)], After(v, Start(index)), started[index := true],
                    running + {index}, completed, done, index + 1)
  {
    StartAllowed(c, limit, stage, v, index);
    StartAgrees(c, limit, v, started, running, completed, index);
  }

  lemma PassingSkips(c: PipelineConfig, limit: nat, stage: nat, trace: seq<Event>, v: View, started: seq<bool>,
                     running: set<nat>, completed: set<string>, done: set<nat>, index: nat)
    requires Consistent(c) && stage < |c.stages|
    requires Passing(c, limit, stage, trace, v, started, running, completed, done, index) && index < |c.jobs|
    requires c.jobs[index].stage != c.stages[stage] || started[index] || !NeedsDone(c, done, index)
    ensures Passing(c, limit, stage, trace, v, started, running, completed, done, index + 1)
  {
    NoneReadySkips(c, v, stage, index);
  }

  lemma NoneReadySkips(c: PipelineConfig, v: View, stage: nat, index: nat)
    requires stage < |c.stages| && NoneReady(c, v, stage, index) && index < |c.jobs|
    requires c.jobs[index].stage != c.stages[stage] || index in v.started || !NeedsDone(c, v.done, index)
    ensures NoneReady(c, v, stage, index + 1)
  {
  }

  lemma ReadyMeansDone(c: PipelineConfig, done: set<nat>, completed: set<string>, index: nat)
    requires CompletedAgrees(c, done, completed) && index < |c.jobs|
    ensures NeedsDone(c, done, index) <==> forall n | n in c.jobs[index].needs :: n in completed
  {
  }

  /** One pass over the jobs: starts the ready jobs of the stage while there is capacity. */
  method Refill(c: PipelineConfig, limit: nat, stage: nat, started: array<bool>, running: set<nat>,
                completed: set<string>, trace: seq<Event>)
    returns (running': set<nat>, trace': seq<Event>)
    requires Consistent(c) && Legal(c, limit, trace)
    requires Agrees(c, limit, ViewOf(trace), started[..], running, completed)
    requires stage < |c.stages| && EarlierStagesDone(c, ViewOf(trace).done, stage) && !ViewOf(trace).stopped
    requires AllOfStage(c, running, stage)
    modifies started
    ensures Legal(c, limit, trace')
    ensures Agrees(c, limit, ViewOf(trace'), started[..], running', completed)
    ensures ViewOf(trace').done == ViewOf(trace).done && !ViewOf(trace').stopped
    ensures AllOfStage(c, running', stage)
    ensures |running'| == limit || NoneReady(c, ViewOf(trace'), stage, |c.jobs|)
  {
    running', trace' := running, trace;
    ghost var v, done := ViewOf(trace), ViewOf(trace).done;
    for index := 0 to |c.jobs|
      invariant Passing(c, limit, stage, trace', v, started[..], running', completed, done, index)
    {
      if |running'| >= limit {
        break;
      }
      var job := c.jobs[index];
      ReadyMeansDone(c, done, completed, index);
      if job.stage != c.stages[stage] || started[index] || !(forall n | n in job.needs :: n in completed) {
        PassingSkips(c, limit, stage, trace', v, started[..], running', completed, done, index);
        continue;
      }
      PassingStarts(c, limit, stage, trace', v, started[..], running', completed, done, index);
      started[index] := true;
      running' := running' + {index};
      trace' := trace' + [Start(index)];
      v := After(v, Start(index));
    }
  }

  lemma FinishAgrees(c: PipelineConfig, limit: nat, v: View, started: seq<bool>, running: set<nat>,
                     completed: set<string>, i: nat, outcome: JobOutcome)
    requires Agrees(c, limit, v, started, running, completed) && i in running
    ensures i < |c.jobs|
    ensures Agrees(c, limit, After(v, Finish(i, outcome)), started, running - {i},
                   if outcome == Completed then completed + {c.jobs[i].name} else completed)
  {
    StepKeepsView(|c.jobs|, limit, v, Finish(i, outcome));
    if outcome == Completed {
      CompleteOne(c, v.done, completed, i);
    }
  }

  lemma CompleteOne(c: PipelineConfig, done: set<nat>, completed: set<string>, i: nat)
    requires CompletedAgrees(c, done, completed) && i < |c.jobs|
    ensures CompletedAgrees(c, done + {i}, completed + {c.jobs[i].name})
  {
    var more := done + {i};
    forall n
      ensures n in completed + {c.jobs[i].name} <==> DoneName(c, more, n)
    {
      if DoneName(c, done, n) {
        var d: nat :| d in done && d < |c.jobs| && c.jobs[d].name == n;
        assert d in more;
      }
      if n == c.jobs[i].name {
        assert i in more;
      }
      if DoneName(c, more, n) && n != c.jobs[i].name {
        var d: nat :| d in more && d < |c.jobs| && c.jobs[d].name == n;
        assert d in done;
      }
    }
  }

  /** While a job of the stage runs, only jobs of the stage could be startable. */
  lemma PassConservesWork(c: PipelineConfig, limit: nat, stage: nat, v: View)
    requires Consistent(c) && stage < |c.stages| && EarlierStagesDone(c, v.done, stage)
    requires v.running !! v.done && v.running != {} && v.done <= v.started && AllOfStage(c, v.running, stage)
    requires |v.running| == limit || NoneReady(c, v, stage, |c.jobs|)
    ensures WorkConserving(c, limit, v)
  {
    var r :| r in v.running;
    StageIs(c, r, stage);
    if |v.running| != limit {
      forall i
        ensures !Startable(c, v, i)
      {
        if 0 <= i < |c.jobs| {
          StageIs(c, i, stage);
          assert StageIndex(c, c.jobs[i]) > stage ==> !EarlierStagesDone(c, v.done, StageIndex(c, c.jobs[i]));
        }
      }
    }
  }

  /** With nothing running and nothing ready, every job of a validated stage is done. */
  lemma {:induction false} IdleStageIsDone(l: Limits, c: PipelineConfig, v: View, stage: nat, i: nat)
    requires Validated(l, c) && Consistent(c) && stage < |c.stages|
    requires EarlierStagesDone(c, v.done, stage) && NoneReady(c, v, stage, |c.jobs|)
    requires v.started == v.done && i < |c.jobs| && c.jobs[i].stage == c.stages[stage]
    ensures i in v.done
  {
    StageIs(c, i, stage);
    forall n | n in c.jobs[i].needs
      ensures DoneName(c, v.done, n)
    {
      assert n in Names(c.jobs)[..i];
      var m: nat :| m < i && Names(c.jobs)[m] == n;
      assert StageIndex(c, c.jobs[m]) <= StageIndex(c, c.jobs[i]);
      StageIs(c, m, stage);
      if StageIndex(c, c.jobs[m]) == stage {
        IdleStageIsDone(l, c, v, stage, m);
      }
      assert m in v.done;
    }
  }

  /** Whether every job of the stage has been started. */
  method StageIsStarted(c: PipelineConfig, stage: nat, started: array<bool>) returns (all: bool)
    requires stage < |c.stages| && started.Length == |c.jobs|
    ensures all <==> forall i | 0 <= i < |c.jobs| && c.jobs[i].stage == c.stages[stage] :: started[i]
  {
    for index := 0 to |c.jobs|
      invariant forall i | 0 <= i < index && c.jobs[i].stage == c.stages[stage] :: started[i]
    {
      if c.jobs[index].stage == c.stages[stage] && !started[index] {
        return false;
      }
    }
    return true;
  }

  /** With nothing running after a pass, the stage is finished, or the needs were not validated. */
  lemma IdleStage(l: Limits, c: PipelineConfig, v: View, stage: nat, started: seq<bool>, all: bool)
    requires Consistent(c) && stage < |c.stages| && EarlierStagesDone(c, v.done, stage)
    requires NoneReady(c, v, stage, |c.jobs|) && v.started == v.done
    requires |started| == |c.jobs| && forall i | 0 <= i < |c.jobs| :: started[i] <==> i in v.started
    requires all <==> forall i | 0 <= i < |c.jobs| && c.jobs[i].stage == c.stages[stage] :: started[i]
    ensures all ==> EarlierStagesDone(c, v.done, stage + 1)
    ensures !all ==> !Validated(l, c)
  {
    if all {
      forall k: nat | k < |c.jobs| && StageIndex(c, c.jobs[k]) < stage + 1
        ensures k in v.done
      {
        StageIs(c, k, stage);
      }
    } else if Validated(l, c) {
      var i :| 0 <= i < |c.jobs| && c.jobs[i].stage == c.stages[stage] && !started[i];
      IdleStageIsDone(l, c, v, stage, i);
    }
  }

  datatype StageEnd = StageDone | StageStopped(result: RunResult)

  /** The last event of a stopped run tells why it was stopped. */
  ghost predicate Explains(l: Limits, c: PipelineConfig, result: RunResult, trace: seq<Event>) {
    match result
    case Canceled => ViewOf(trace).stopped && CancelSeen in trace
    case JobError(i) =>
      ViewOf(trace).stopped && (Finish(i, JobFailed) in trace || Finish(i, Panicked) in trace)
    case NoProgress => !Validated(l, c) && !ViewOf(trace).stopped && ViewOf(trace).running == {}
    case _ => false
  }

  /** The loop invariant of a stage. */
  ghost predicate InStage(c: PipelineConfig, stage: nat, trace: seq<Event>, started: seq<bool>, running: set<nat>,
                          completed: set<string>)
    requires Consistent(c) && stage < |c.stages|
  {
    && Legal(c, c.maxParallelJobs, trace)
    && Agrees(c, c.maxParallelJobs, ViewOf(trace), started, running, completed)
    && EarlierStagesDone(c, ViewOf(trace).done, stage) && !ViewOf(trace).stopped
    && AllOfStage(c, running, stage)
  }

  lemma CancelIsSeen(c: PipelineConfig, trace: seq<Event>, started: seq<bool>, running: set<nat>,
                     completed: set<string>)
    requires Consistent(c) && Legal(c, c.maxParallelJobs, trace) && !ViewOf(trace).stopped
    requires Agrees(c, c.maxParallelJobs, ViewOf(trace), started, running, completed)
    ensures Legal(c, c.maxParallelJobs, trace + [CancelSeen]) && ViewOf(trace + [CancelSeen]).stopped
    ensures Agrees(c, c.maxParallelJobs, ViewOf(trace + [CancelSeen]), started, running, completed)
  {
    StepKeepsView(|c.jobs|, c.maxParallelJobs, ViewOf(trace), CancelSeen);
  }

  /** One turn of the inner loop: refill, then wait for one job, unless the stage ends. */
  method StageTurn(ghost l: Limits, c: PipelineConfig, stage: nat, started: array<bool>, running: set<nat>,
                   completed: set<string>, trace: seq<Event>)
    returns (end: Option<StageEnd>, running': set<nat>, completed': set<string>, trace': seq<Event>)
    requires Consistent(c) && stage < |c.stages| && 1 <= c.maxParallelJobs
    requires InStage(c, stage, trace, started[..], running, completed)
    modifies started
    ensures end.None? ==> InStage(c, stage, trace', started[..], running', completed')
    ensures end.None? ==> ViewOf(trace).done < ViewOf(trace').done <= Below(|c.jobs|)
    ensures end.Some? ==> Legal(c, c.maxParallelJobs, trace')
    ensures end.Some? ==> Agrees(c, c.maxParallelJobs, ViewOf(trace'), started[..], running', completed')
    ensures end == Some(StageDone) ==> running' == {} && !ViewOf(trace').stopped
                                       && EarlierStagesDone(c, ViewOf(trace').done, stage + 1)
    ensures end.Some? && end.value.StageStopped? ==> Explains(l, c, end.value.result, trace')
  {
    running', completed', trace' := running, completed, trace;
    var canceled: bool := *;
    if canceled {
      CancelIsSeen(c, trace', started[..], running', completed');
      return Some(StageStopped(Canceled)), running', completed', trace' + [CancelSeen];
    }
    running', trace' := Refill(c, c.maxParallelJobs, stage, started, running', completed', trace');
    if running' == {} {
      var allStarted := StageIsStarted(c, stage, started);
      IdleStage(l, c, ViewOf(trace'), stage, started[..], allStarted);
      return Some(if allStarted then StageDone else StageStopped(NoProgress)), running', completed', trace';
    }
    canceled := *;
    if canceled {
      CancelIsSeen(c, trace', started[..], running', completed');
      return Some(StageStopped(Canceled)), running', completed', trace' + [CancelSeen];
    }
    var failed;
    failed, running', completed', trace' := JoinNext(c, stage, started[..], running', completed', trace');
    if failed.Some? {
      return Some(StageStopped(JobError(failed.value))), running', completed', trace';
    }
    return None, running', completed', trace';
  }

  /** The inner loop for one stage. */
  method RunStage(ghost l: Limits, c: PipelineConfig, stage: nat, started: array<bool>, completed: set<string>,
                  trace: seq<Event>)
    returns (end: StageEnd, running: set<nat>, completed': set<string>, trace': seq<Event>)
    requires Consistent(c) && stage < |c.stages| && 1 <= c.maxParallelJobs
    requires InStage(c, stage, trace, started[..], {}, completed)
    modifies started
    ensures Legal(c, c.maxParallelJobs, trace')
    ensures Agrees(c, c.maxParallelJobs, ViewOf(trace'), started[..], running, completed')
    ensures end == StageDone ==> running == {} && !ViewOf(trace').stopped
    ensures end == StageDone ==> EarlierStagesDone(c, ViewOf(trace').done, stage + 1)
    ensures end.StageStopped? ==> Explains(l, c, end.result, trace')
  {
    running, completed', trace' := {}, completed, trace;
    while true
      invariant InStage(c, stage, trace', started[..], running, completed')
      decreases Below(|c.jobs|) - ViewOf(trace').done
    {
      var turn;
      turn, running, completed', trace' := StageTurn(l, c, stage, started, running, completed', trace');
      if turn.Some? {
        return turn.value, running, completed', trace';
      }
    }
  }

  lemma JoinIsLegal(c: PipelineConfig, stage: nat, started: seq<bool>, running: set<nat>, completed: set<string>,
                    trace: seq<Event>, index: nat, outcome: JobOutcome)
    requires Consistent(c) && stage < |c.stages| && Legal(c, c.maxParallelJobs, trace)
    requires Agrees(c, c.maxParallelJobs, ViewOf(trace), started, running, completed)
    requires EarlierStagesDone(c, ViewOf(trace).done, stage) && !ViewOf(trace).stopped
    requires index in running && AllOfStage(c, running, stage)
    requires |running| == c.maxParallelJobs || NoneReady(c, ViewOf(trace), stage, |c.jobs|)
    ensures index < |c.jobs| && Legal(c, c.maxParallelJobs, trace + [Finish(index, outcome)])
    ensures ViewOf(trace + [Finish(index, outcome)]) == After(ViewOf(trace), Finish(index, outcome))
    ensures Agrees(c, c.maxParallelJobs, After(ViewOf(trace), Finish(index, outcome)), started, running - {index},
                   if outcome == Completed then completed + {c.jobs[index].name} else completed)
  {
    PassConservesWork(c, c.maxParallelJobs, stage, ViewOf(trace));
    FinishAgrees(c, c.maxParallelJobs, ViewOf(trace), started, running, completed, index, outcome);
  }

  /** Waits until some running job ends; the environment chooses which one and how. */
  method JoinNext(c: PipelineConfig, ghost stage: nat, ghost started: seq<bool>, running: set<nat>,
                  completed: set<string>, trace: seq<Event>)
    returns (failed: Option<nat>, running': set<nat>, completed': set<string>, trace': seq<Event>)
    requires Consistent(c) && stage < |c.stages| && Legal(c, c.maxParallelJobs, trace)
    requires Agrees(c, c.maxParallelJobs, ViewOf(trace), started, running, completed)
    requires EarlierStagesDone(c, ViewOf(trace).done, stage) && !ViewOf(trace).stopped
    requires running != {} && AllOfStage(c, running, stage)
    requires |running| == c.maxParallelJobs || NoneReady(c, ViewOf(trace), stage, |c.jobs|)
    ensures Legal(c, c.maxParallelJobs, trace')
    ensures Agrees(c, c.maxParallelJobs, ViewOf(trace'), started, running', completed')
    ensures EarlierStagesDone(c, ViewOf(trace').done, stage) && AllOfStage(c, running', stage)
    ensures failed.Some? ==> ViewOf(trace').stopped
    ensures failed.Some? ==> Finish(failed.value, JobFailed) in trace' || Finish(failed.value, Panicked) in trace'
    ensures failed.None? ==> !ViewOf(trace').stopped && ViewOf(trace).done < ViewOf(trace').done <= Below(|c.jobs|)
  {
    var index: nat :| index in running;
    var outcome: JobOutcome := *;
    JoinIsLegal(c, stage, started, running, completed, trace, index, outcome);
    running' := running - {index};
    trace' := trace + [Finish(index, outcome)];
    assert Finish(index, outcome) in trace';
    if outcome == Completed {
      failed, completed' := None, completed + {c.jobs[index].name};
    } else {
      failed, completed' := Some(index), completed;
    }
  }

  /** Joins every job that is still running after the run was stopped. */
  method DrainRunning(c: PipelineConfig, running: set<nat>, trace: seq<Event>) returns (trace': seq<Event>)
    requires Consistent(c) && Legal(c, c.maxParallelJobs, trace) && ViewOf(trace).running == running
    requires ViewOf(trace).stopped || running == {}
    ensures Legal(c, c.maxParallelJobs, trace') && ViewOf(trace') == ViewOf(trace).(running := {})
    ensures trace <= trace'
  {
    trace' := trace;
    var left := running;
    while left != {}
      invariant Legal(c, c.maxParallelJobs, trace') && trace <= trace'
      invariant ViewOf(trace') == ViewOf(trace).(running := left)
      invariant left != {} ==> ViewOf(trace).stopped
      decreases left
    {
      var index: nat :| index in left;
      trace' := trace' + [Drain(index)];
      left := left - {index};
    }
  }

  /**
   * `run_jobs` against an arbitrary environment, which decides when cancellation is observed, which
   * running job ends next and how. The returned trace lists every start and end.
   */
  method RunJobs(l: Limits, c: PipelineConfig) returns (result: RunResult, trace: seq<Event>)
    requires Consistent(c)
    ensures result == InvalidConcurrency <==> !(1 <= c.maxParallelJobs <= l.parallel)
    ensures result == InvalidConcurrency ==> trace == []
    ensures Legal(c, c.maxParallelJobs, trace)
    ensures ViewOf(trace).running == {}
    ensures result == Succeeded ==>
              !ViewOf(trace).stopped && ViewOf(trace).started == ViewOf(trace).done == Below(|c.jobs|)
    ensures result.Canceled? || result.JobError? <==> ViewOf(trace).stopped
    ensures result.Canceled? || result.JobError? ==> Explains(l, c, result, trace)
    ensures Validated(l, c) ==> result != NoProgress
  {
    trace := [];
    if !(1 <= c.maxParallelJobs <= l.parallel) {
      return InvalidConcurrency, trace;
    }
    var started := new bool[|c.jobs|](_ => false);
    var completed: set<string> := {};
    for stage := 0 to |c.stages|
      invariant Legal(c, c.maxParallelJobs, trace)
      invariant Agrees(c, c.maxParallelJobs, ViewOf(trace), started[..], {}, completed)
      invariant EarlierStagesDone(c, ViewOf(trace).done, stage) && !ViewOf(trace).stopped
    {
      var end, running;
      end, running, completed, trace := RunStage(l, c, stage, started, completed, trace);
      if end.StageStopped? {
        trace := DrainRunning(c, running, trace);
        return end.result, trace;
      }
    }
    return Succeeded, trace;
  }

  // ---------- what every legal trace keeps ----------

  ghost function StartsOf(t: seq<Event>): seq<nat> {
    if t == [] then []
    else if t[|t|-1].Start? then StartsOf(t[..|t|-1]) + [t[|t|-1].job] else StartsOf(t[..|t|-1])
  }

  lemma LegalView(c: PipelineConfig, limit: nat, t: seq<Event>)
    requires Consistent(c) && Legal(c, limit, t)
    ensures var v := ViewOf(t);
            && |v.running| <= limit && v.running <= v.started && v.done <= v.started && v.running !! v.done
            && (!v.stopped ==> v.started == v.running + v.done)
            && (forall i | i in v.started :: i < |c.jobs|)
  {
    LegalViewIsOk(c, limit, t);
  }

  lemma {:induction false} LegalViewIsOk(c: PipelineConfig, limit: nat, t: seq<Event>)
    requires Consistent(c) && Legal(c, limit, t)
    ensures ViewOk(|c.jobs|, limit, ViewOf(t))
  {
    if t != [] {
      var u, e := t[..|t|-1], t[|t|-1];
      LegalViewIsOk(c, limit, u);
      assert Orderly(|c.jobs|, limit, ViewOf(u), e);
      StepKeepsView(|c.jobs|, limit, ViewOf(u), e);
    }
  }

  lemma {:induction false} StartsAreDistinct(c: PipelineConfig, limit: nat, t: seq<Event>)
    requires Consistent(c) && Legal(c, limit, t)
    ensures (forall i :: i in ViewOf(t).started <==> i in StartsOf(t)) && NoDup(StartsOf(t))
  {
    if t != [] {
      StartsAreDistinct(c, limit, t[..|t|-1]);
    }
  }

  lemma {:induction false} LegalAt(c: PipelineConfig, limit: nat, t: seq<Event>, n: nat)
    requires Consistent(c) && Legal(c, limit, t) && n <= |t|
    ensures Legal(c, limit, t[..n])
    ensures n < |t| ==> Allowed(c, limit, ViewOf(t[..n]), t[n])
  {
    if n < |t| {
      var u := t[..|t|-1];
      LegalAt(c, limit, u, n);
      assert u[..n] == t[..n];
    } else {
      assert t[..n] == t;
    }
  }

  lemma {:induction false} ViewGrows(t: seq<Event>, m: nat, n: nat)
    requires m <= n <= |t|
    ensures ViewOf(t[..m]).started <= ViewOf(t[..n]).started && ViewOf(t[..m]).done <= ViewOf(t[..n]).done
    ensures ViewOf(t[..m]).stopped ==> ViewOf(t[..n]).stopped
    decreases n - m
  {
    if m < n {
      ViewGrows(t, m, n - 1);
      assert t[..n][..n-1] == t[..n-1];
    }
  }

  /** After a failure or an observed cancellation nothing starts any more. */
  lemma NothingStartsAfterStop(c: PipelineConfig, limit: nat, t: seq<Event>, m: nat, n: nat)
    requires Consistent(c) && Legal(c, limit, t) && m < n < |t|
    requires t[m] == CancelSeen || (t[m].Finish? && t[m].outcome != Completed)
    ensures !t[n].Start? && !t[n].Finish?
  {
    assert t[..m+1][..m] == t[..m];
    assert ViewOf(t[..m+1]).stopped;
    ViewGrows(t, m + 1, n);
    LegalAt(c, limit, t, n);
  }

  lemma {:induction false} DoneHasFinish(t: seq<Event>, i: nat)
    requires i in ViewOf(t).done
    ensures Finish(i, Completed) in t
  {
    var u := t[..|t|-1];
    if i in ViewOf(u).done {
      DoneHasFinish(u, i);
    }
  }

  /** A job starts only when its needs and all earlier stages have completed successfully before. */
  lemma StartsAreJustified(c: PipelineConfig, limit: nat, t: seq<Event>, n: nat)
    requires Consistent(c) && Legal(c, limit, t) && n < |t| && t[n].Start?
    ensures t[n].job < |c.jobs| && |ViewOf(t[..n]).running| < limit
    ensures forall need | need in c.jobs[t[n].job].needs ::
              exists d: nat :: d < |c.jobs| && c.jobs[d].name == need && Finish(d, Completed) in t[..n]
    ensures forall k: nat | k < |c.jobs| && StageIndex(c, c.jobs[k]) < StageIndex(c, c.jobs[t[n].job]) ::
              Finish(k, Completed) in t[..n]
  {
    var i, done := t[n].job, ViewOf(t[..n]).done;
    LegalAt(c, limit, t, n);
    forall d: nat | d in done
      ensures Finish(d, Completed) in t[..n]
    {
      DoneHasFinish(t[..n], d);
    }
    forall need | need in c.jobs[i].needs
      ensures exists d: nat :: d < |c.jobs| && c.jobs[d].name == need && Finish(d, Completed) in t[..n]
    {
      assert DoneName(c, done, need);
    }
  }

  /** With one slot a validated list is started exactly in list order. */
  lemma {:induction false} SerialRunsInListOrder(l: Limits, c: PipelineConfig, t: seq<Event>)
    requires Validated(l, c) && Consistent(c) && Legal(c, 1, t)
    ensures StartsOf(t) == seq(|StartsOf(t)|, k => k)
  {
    if t != [] {
      var u, e := t[..|t|-1], t[|t|-1];
      SerialRunsInListOrder(l, c, u);
      if e.Start? {
        SerialStart(l, c, u, e.job);
      }
    }
  }

  lemma SerialStart(l: Limits, c: PipelineConfig, u: seq<Event>, i: nat)
    requires Validated(l, c) && Consistent(c) && Legal(c, 1, u) && Allowed(c, 1, ViewOf(u), Start(i))
    requires StartsOf(u) == seq(|StartsOf(u)|, k => k)
    ensures i == |StartsOf(u)|
  {
    LegalView(c, 1, u);
    StartsAreDistinct(c, 1, u);
    var m := |StartsOf(u)|;
    forall k: nat
      ensures k in ViewOf(u).started <==> k < m
    {
      if k < m {
        assert StartsOf(u)[k] == k;
      }
    }
    NextInOrder(l, c, ViewOf(u), m, i);
  }

  lemma NextInOrder(l: Limits, c: PipelineConfig, v: View, m: nat, i: nat)
    requires Validated(l, c) && Consistent(c)
    requires v.running == {} && v.started == v.done && forall k: nat :: k in v.started <==> k < m
    requires Allowed(c, 1, v, Start(i))
    ensures i == m
  {
    if m < i {
      FirstUnstartedIsStartable(l, c, v, m, i);
    }
  }

  /** In a validated list the first unstarted job may start as soon as a later one may. */
  lemma FirstUnstartedIsStartable(l: Limits, c: PipelineConfig, v: View, m: nat, i: nat)
    requires Validated(l, c) && Consistent(c) && m < i < |c.jobs|
    requires v.started == v.done && forall k: nat :: k in v.started <==> k < m
    requires EarlierStagesDone(c, v.done, StageIndex(c, c.jobs[i]))
    ensures Startable(c, v, m) && c.jobs[m].stage == c.jobs[i].stage
  {
    assert StageIndex(c, c.jobs[m]) <= StageIndex(c, c.jobs[i]);
    forall n | n in c.jobs[m].needs
      ensures DoneName(c, v.done, n)
    {
      assert n in Names(c.jobs)[..m];
      var k: nat :| k < m && Names(c.jobs)[k] == n;
      assert k in v.done;
    }
  }

  /** A successful run has started every job exactly once, and completed it. */
  lemma SuccessRunsEachJobOnce(c: PipelineConfig, limit: nat, t: seq<Event>)
    requires Consistent(c) && Legal(c, limit, t)
    requires ViewOf(t).started == ViewOf(t).done == Below(|c.jobs|)
    ensures NoDup(StartsOf(t)) && |StartsOf(t)| == |c.jobs|
    ensures forall i: nat | i < |c.jobs| :: i in StartsOf(t) && Finish(i, Completed) in t
  {
    StartsAreDistinct(c, limit, t);
    forall i: nat | i < |c.jobs|
      ensures Finish(i, Completed) in t
    {
      DoneHasFinish(t, i);
    }
    CoveringListIsLong(StartsOf(t), |c.jobs|);
    DistinctFitsInSet(StartsOf(t), Below(|c.jobs|));
  }
}
