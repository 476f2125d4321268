/** How long a stage takes when every job takes one unit of time: the bound of list scheduling. */
module UnitTime {
  import opened Graph
  import opened Topo
  import opened Config
  import opened Scheduler

  // ---------- chains of needs inside one stage ----------

  ghost predicate InStageJob(c: PipelineConfig, stage: nat, i: nat)
    requires Consistent(c)
  {
    i < |c.jobs| && StageIndex(c, c.jobs[i]) == stage
  }

  /** i needs y and both belong to the stage. */
  ghost predicate StageNeed(c: PipelineConfig, stage: nat, i: nat, y: nat)
    requires Consistent(c)
  {
    InStageJob(c, stage, i) && InStageJob(c, stage, y) && c.jobs[y].name in c.jobs[i].needs
  }

  ghost predicate IsChain(c: PipelineConfig, stage: nat, p: seq<nat>)
    requires Consistent(c)
  {
    && p != [] && (forall k | 0 <= k < |p| :: InStageJob(c, stage, p[k]))
    && forall k | 0 < k < |p| :: StageNeed(c, stage, p[k-1], p[k])
  }

  ghost predicate ChainsBoundedBy(c: PipelineConfig, stage: nat, bound: nat)
    requires Consistent(c)
  {
    forall p {:trigger IsChain(c, stage, p)} | IsChain(c, stage, p) :: |p| <= bound
  }

  // ---------- schedules by rounds ----------

  /** All jobs of the first n rounds. */
  ghost function Before(rounds: seq<set<nat>>, n: nat): set<nat>
    requires n <= |rounds|
  {
    if n == 0 then {} else Before(rounds, n - 1) + rounds[n-1]
  }

  ghost predicate Waits(c: PipelineConfig, stage: nat, done: set<nat>, j: nat)
    requires Consistent(c)
  {
    exists y: nat :: StageNeed(c, stage, j, y) && y !in done
  }

  /** A round that does not use the whole capacity leaves only jobs that wait for a need. */
  ghost predicate IsRound(c: PipelineConfig, stage: nat, limit: nat, rounds: seq<set<nat>>, t: nat)
    requires Consistent(c) && t < |rounds|
  {
    && rounds[t] != {} && rounds[t] !! Before(rounds, t)
    && (forall j | j in rounds[t] :: InStageJob(c, stage, j))
    && (|rounds[t]| == limit
        || forall j: nat {:trigger Waits(c, stage, Before(rounds, t), j)} |
             InStageJob(c, stage, j) && j !in Before(rounds, t) + rounds[t] :: Waits(c, stage, Before(rounds, t), j))
  }

  ghost predicate IsSchedule(c: PipelineConfig, stage: nat, limit: nat, rounds: seq<set<nat>>)
    requires Consistent(c)
  {
    forall t {:trigger IsRound(c, stage, limit, rounds, t)} | 0 <= t < |rounds| :: IsRound(c, stage, limit, rounds, t)
  }

  /** How many of the first n rounds leave capacity unused. */
  ghost function Slack(rounds: seq<set<nat>>, limit: nat, n: nat): (k: nat)
    requires n <= |rounds|
    ensures k <= n
  {
    if n == 0 then 0 else Slack(rounds, limit, n - 1) + if |rounds[n-1]| == limit then 0 else 1
  }

  /** m * n by repeated addition. */
  ghost function Times(m: nat, n: nat): nat {
    if n == 0 then 0 else Times(m, n - 1) + m
  }

  lemma {:induction false} TimesIsProduct(m: nat, n: nat)
    ensures Times(m, n) == m * n
  {
    if n > 0 {
      TimesIsProduct(m, n - 1);
      assert m * n == m * (n - 1) + m;
    }
  }

  lemma {:induction false} TimesMonotone(m: nat, a: nat, b: nat)
    requires a <= b
    ensures Times(m, a) <= Times(m, b)
  {
    if a < b {
      TimesMonotone(m, a, b - 1);
    }
  }

  lemma {:induction false} RoundsCount(c: PipelineConfig, stage: nat, limit: nat, rounds: seq<set<nat>>, n: nat)
    requires Consistent(c) && IsSchedule(c, stage, limit, rounds) && n <= |rounds| && limit >= 1
    ensures Times(limit, n) <= |Before(rounds, n)| + Times(limit - 1, Slack(rounds, limit, n))
  {
    if n > 0 {
      RoundsCount(c, stage, limit, rounds, n - 1);
      RoundAdds(c, stage, limit, rounds, n - 1);
    }
  }

  lemma RoundAdds(c: PipelineConfig, stage: nat, limit: nat, rounds: seq<set<nat>>, n: nat)
    requires Consistent(c) && n < |rounds| && IsRound(c, stage, limit, rounds, n)
    ensures |Before(rounds, n + 1)| == |Before(rounds, n)| + |rounds[n]| && |rounds[n]| >= 1
  {
    var j :| j in rounds[n];
    SubsetIsSmaller({j}, rounds[n]);
  }

  /** A job not run in the first n rounds heads a chain longer than their number of slack rounds. */
  lemma {:induction false} LateJobHeadsChain(c: PipelineConfig, stage: nat, limit: nat, rounds: seq<set<nat>>,
                                             n: nat, j: nat)
    returns (p: seq<nat>)
    requires Consistent(c) && IsSchedule(c, stage, limit, rounds) && n <= |rounds|
    requires InStageJob(c, stage, j) && j !in Before(rounds, n)
    ensures IsChain(c, stage, p) && p[0] == j && |p| == Slack(rounds, limit, n) + 1
  {
    if n == 0 {
      p := [j];
    } else if |rounds[n-1]| == limit {
      p := LateJobHeadsChain(c, stage, limit, rounds, n - 1, j);
    } else {
      assert IsRound(c, stage, limit, rounds, n - 1);
      assert Waits(c, stage, Before(rounds, n - 1), j);
      var y: nat :| StageNeed(c, stage, j, y) && y !in Before(rounds, n - 1);
      var q := LateJobHeadsChain(c, stage, limit, rounds, n - 1, y);
      p := [j] + q;
    }
  }

  lemma SlackIsBounded(c: PipelineConfig, stage: nat, limit: nat, rounds: seq<set<nat>>, chain: nat)
    requires Consistent(c) && IsSchedule(c, stage, limit, rounds) && ChainsBoundedBy(c, stage, chain)
    ensures Slack(rounds, limit, |rounds|) <= chain
  {
    var n := |rounds|;
    if n > 0 {
      assert IsRound(c, stage, limit, rounds, n - 1);
      var j :| j in rounds[n-1];
      var p := LateJobHeadsChain(c, stage, limit, rounds, n - 1, j);
    }
  }

  /** m * T <= W + (m - 1) * L for every schedule by rounds. */
  lemma ScheduleBound(c: PipelineConfig, stage: nat, limit: nat, rounds: seq<set<nat>>, jobs: set<nat>, chain: nat)
    requires Consistent(c) && IsSchedule(c, stage, limit, rounds) && limit >= 1
    requires Before(rounds, |rounds|) <= jobs && ChainsBoundedBy(c, stage, chain)
    ensures Times(limit, |rounds|) <= |jobs| + Times(limit - 1, chain)
  {
    RoundsCount(c, stage, limit, rounds, |rounds|);
    SlackIsBounded(c, stage, limit, rounds, chain);
    SubsetIsSmaller(Before(rounds, |rounds|), jobs);
    TimesMonotone(limit - 1, Slack(rounds, limit, |rounds|), chain);
  }

  lemma SubsetIsSmaller(a: set<nat>, b: set<nat>)
    requires a <= b
    ensures |a| <= |b|
  {
    assert b == a + (b - a);
  }

  // ---------- timed runs of the scheduler ----------

  /**
   * A run of one stage, the events a.. of a legal trace, with unit-time jobs: time starts at 0 and only
   * advances while the scheduler waits, so a start happens at the time of the event before it, and every
   * job ends exactly one unit after its start.
   */
  ghost predicate UnitTimed(t: seq<Event>, a: nat, time: seq<nat>) {
    && a <= |t| == |time|
    && (forall k | a <= k < |t| :: t[k].Start? || (t[k].Finish? && t[k].outcome == Completed))
    && (forall k, m | a <= k <= m < |t| :: time[k] <= time[m])
    && (a < |t| && t[a].Start? ==> time[a] == 0)
    && (forall k {:trigger t[k]} | a < k < |t| && t[k].Start? :: time[k] == time[k-1])
    && (forall k, m | a <= k < |t| && a <= m < |t| && t[k].Start? && t[m].Finish? && t[k].job == t[m].job ::
          time[m] == time[k] + 1)
  }

  /** The events a.. are the whole run of one stage. */
  ghost predicate StageRun(c: PipelineConfig, limit: nat, stage: nat, t: seq<Event>, a: nat)
    requires Consistent(c) && a <= |t|
  {
    && Legal(c, limit, t)
    && ViewOf(t[..a]).running == {} && ViewOf(t).running == {}
    && !ViewOf(t).stopped && EarlierStagesDone(c, ViewOf(t[..a]).done, stage)
    && (forall i: nat | InStageJob(c, stage, i) :: i !in ViewOf(t[..a]).started)
    && (forall k | a <= k < |t| && t[k].Start? :: InStageJob(c, stage, t[k].job))
  }

  /** The jobs started at one moment. */
  ghost function StartedAt(t: seq<Event>, a: nat, time: seq<nat>, moment: nat): (s: set<nat>)
    requires a <= |t| == |time|
    ensures forall j :: j in s <==> exists k :: a <= k < |t| && t[k] == Start(j) && time[k] == moment
  {
    set k | a <= k < |t| && t[k].Start? && time[k] == moment :: t[k].job
  }

  ghost function Rounds(t: seq<Event>, a: nat, time: seq<nat>, n: nat): (r: seq<set<nat>>)
    requires a <= |t| == |time|
    ensures |r| == n && forall x | 0 <= x < n :: r[x] == StartedAt(t, a, time, x)
  {
    seq(n, x requires 0 <= x < n => StartedAt(t, a, time, x))
  }

  ghost predicate StartsBefore(t: seq<Event>, a: nat, n: nat, j: nat)
    requires a <= n <= |t|
  {
    exists k :: a <= k < n && t[k] == Start(j)
  }

  ghost predicate FinishesBefore(t: seq<Event>, a: nat, n: nat, j: nat)
    requires a <= n <= |t|
  {
    exists k :: a <= k < n && t[k] == Finish(j, Completed)
  }

  /** What the view says about the events of the stage so far. */
  lemma {:induction false} StageView(t: seq<Event>, a: nat, n: nat)
    requires a <= n <= |t|
    requires forall k | a <= k < |t| :: t[k].Start? || (t[k].Finish? && t[k].outcome == Completed)
    ensures forall j :: j in ViewOf(t[..n]).started <==> j in ViewOf(t[..a]).started || StartsBefore(t, a, n, j)
    ensures forall j :: j in ViewOf(t[..n]).done <==> j in ViewOf(t[..a]).done || FinishesBefore(t, a, n, j)
  {
    if n > a {
      StageView(t, a, n - 1);
      assert t[..n][..n-1] == t[..n-1];
      assert ViewOf(t[..n]) == After(ViewOf(t[..n-1]), t[n-1]);
      StepStarts(t, a, n);
    }
  }

  lemma StepStarts(t: seq<Event>, a: nat, n: nat)
    requires a < n <= |t|
    ensures forall j :: StartsBefore(t, a, n, j) <==> StartsBefore(t, a, n - 1, j) || t[n-1] == Start(j)
    ensures forall j :: FinishesBefore(t, a, n, j) <==> FinishesBefore(t, a, n - 1, j) || t[n-1] == Finish(j, Completed)
  {
    forall j
      ensures StartsBefore(t, a, n, j) <==> StartsBefore(t, a, n - 1, j) || t[n-1] == Start(j)
      ensures FinishesBefore(t, a, n, j) <==> FinishesBefore(t, a, n - 1, j) || t[n-1] == Finish(j, Completed)
    {
    }
  }

  /** A whole stage run with unit-time jobs. */
  ghost predicate TimedStage(l: Limits, c: PipelineConfig, stage: nat, t: seq<Event>, a: nat, time: seq<nat>) {
    && Validated(l, c) && Consistent(c) && a <= |t|
    && StageRun(c, c.maxParallelJobs, stage, t, a) && UnitTimed(t, a, time)
  }

  /** Before and during the stage: running is what started and did not finish. */
  lemma StageFacts(l: Limits, c: PipelineConfig, stage: nat, t: seq<Event>, a: nat, time: seq<nat>, n: nat)
    requires TimedStage(l, c, stage, t, a, time) && a <= n <= |t|
    ensures ViewOf(t[..a]).started == ViewOf(t[..a]).done
    ensures ViewOf(t[..n]).running == ViewOf(t[..n]).started - ViewOf(t[..n]).done
    ensures ViewOf(t[..a]).done <= ViewOf(t[..n]).done && ViewOf(t[..a]).started <= ViewOf(t[..n]).started
  {
    assert t[..|t|] == t;
    ViewGrows(t, a, n);
    ViewGrows(t, n, |t|);
    LegalAt(c, c.maxParallelJobs, t, a);
    LegalAt(c, c.maxParallelJobs, t, n);
    LegalView(c, c.maxParallelJobs, t[..a]);
    LegalView(c, c.maxParallelJobs, t[..n]);
  }

  lemma StartIsFresh(l: Limits, c: PipelineConfig, stage: nat, t: seq<Event>, a: nat, time: seq<nat>, m: nat)
    requires TimedStage(l, c, stage, t, a, time) && a <= m < |t| && t[m].Start?
    ensures t[m].job !in ViewOf(t[..m]).started && t[m].job !in ViewOf(t[..a]).started
    ensures forall k | a <= k < m :: t[k] != t[m]
  {
    LegalAt(c, c.maxParallelJobs, t, m);
    StageFacts(l, c, stage, t, a, time, m);
    StageView(t, a, m);
    assert !StartsBefore(t, a, m, t[m].job);
  }

  lemma StartIsUnique(l: Limits, c: PipelineConfig, stage: nat, t: seq<Event>, a: nat, time: seq<nat>, m: nat, q: nat)
    requires TimedStage(l, c, stage, t, a, time) && a <= m < |t| && a <= q < |t| && t[m].Start? && t[q] == t[m]
    ensures q == m
  {
    StartIsFresh(l, c, stage, t, a, time, m);
    StartIsFresh(l, c, stage, t, a, time, q);
  }

  lemma StartedJobFinishes(l: Limits, c: PipelineConfig, stage: nat, t: seq<Event>, a: nat, time: seq<nat>, m: nat)
    returns (f: nat)
    requires TimedStage(l, c, stage, t, a, time) && a <= m < |t| && t[m].Start?
    ensures a <= f < |t| && t[f] == Finish(t[m].job, Completed) && time[f] == time[m] + 1
  {
    var j := t[m].job;
    StartIsFresh(l, c, stage, t, a, time, m);
    StageFacts(l, c, stage, t, a, time, |t|);
    StageView(t, a, |t|);
    assert t[..|t|] == t;
    assert StartsBefore(t, a, |t|, j);
    assert FinishesBefore(t, a, |t|, j);
    f :| a <= f < |t| && t[f] == Finish(j, Completed);
  }

  /** The first event after moment x. */
  lemma FirstAfter(time: seq<nat>, a: nat, x: nat) returns (k: nat)
    requires a < |time| && time[|time|-1] > x
    ensures a <= k < |time| && time[k] > x && forall m | a <= m < k :: time[m] <= x
  {
    k := a;
    while time[k] <= x
      invariant a <= k < |time| && forall m | a <= m < k :: time[m] <= x
      decreases |time| - k
    {
      k := k + 1;
    }
  }

  /** The first event after moment x is the end, at x + 1, of a job started at x. */
  lemma FirstAfterIsFinish(l: Limits, c: PipelineConfig, stage: nat, t: seq<Event>, a: nat, time: seq<nat>, x: nat,
                           k: nat)
    requires TimedStage(l, c, stage, t, a, time) && a <= k < |t| && time[k] > x
    requires forall m | a <= m < k :: time[m] <= x
    ensures t[k].Finish? && time[k] == x + 1 && t[k].job in StartedAt(t, a, time, x)
  {
    FinishIsRunning(l, c, stage, t, a, time, k);
    var m := RunningHasStart(l, c, stage, t, a, time, k, t[k].job);
    FinishTime(t, a, time, m, k);
  }

  lemma FinishIsRunning(l: Limits, c: PipelineConfig, stage: nat, t: seq<Event>, a: nat, time: seq<nat>, k: nat)
    requires TimedStage(l, c, stage, t, a, time) && a <= k < |t| && t[k].Finish?
    ensures t[k].job in ViewOf(t[..k]).running
  {
    LegalAt(c, c.maxParallelJobs, t, k);
  }

  lemma FinishTime(t: seq<Event>, a: nat, time: seq<nat>, m: nat, k: nat)
    requires UnitTimed(t, a, time) && a <= m < k < |t| && t[k].Finish? && t[m] == Start(t[k].job)
    ensures time[k] == time[m] + 1
  {
  }

  lemma RunningHasStart(l: Limits, c: PipelineConfig, stage: nat, t: seq<Event>, a: nat, time: seq<nat>, k: nat, j: nat)
    returns (m: nat)
    requires TimedStage(l, c, stage, t, a, time) && a <= k <= |t| && j in ViewOf(t[..k]).running
    ensures a <= m < k && t[m] == Start(j)
    ensures !FinishesBefore(t, a, k, j)
  {
    StageFacts(l, c, stage, t, a, time, k);
    StageView(t, a, k);
    assert StartsBefore(t, a, k, j);
    m :| a <= m < k && t[m] == Start(j);
  }

  /** While time x + 1 begins, exactly the jobs started at x are running. */
  lemma RunningIsRound(l: Limits, c: PipelineConfig, stage: nat, t: seq<Event>, a: nat, time: seq<nat>, x: nat, k: nat)
    requires TimedStage(l, c, stage, t, a, time) && a <= k < |t| && time[k] > x
    requires forall m | a <= m < k :: time[m] <= x
    ensures ViewOf(t[..k]).running == StartedAt(t, a, time, x)
  {
    FirstAfterIsFinish(l, c, stage, t, a, time, x, k);
    StageFacts(l, c, stage, t, a, time, k);
    StageView(t, a, k);
    forall j | j in ViewOf(t[..k]).running
      ensures j in StartedAt(t, a, time, x)
    {
      assert StartsBefore(t, a, k, j);
      var m :| a <= m < k && t[m] == Start(j);
      var f := StartedJobFinishes(l, c, stage, t, a, time, m);
      assert !FinishesBefore(t, a, k, j);
      assert time[k] <= time[f];
    }
    forall j | j in StartedAt(t, a, time, x)
      ensures j in ViewOf(t[..k]).running
    {
      var m :| a <= m < |t| && t[m] == Start(j) && time[m] == x;
      assert m < k;
      assert StartsBefore(t, a, k, j);
      StartIsFresh(l, c, stage, t, a, time, m);
      assert forall f | a <= f < k && t[f] == Finish(j, Completed) :: time[f] == time[m] + 1;
      assert !FinishesBefore(t, a, k, j);
    }
  }

  ghost predicate StartedEarlier(t: seq<Event>, a: nat, time: seq<nat>, n: nat, j: nat)
    requires a <= |t| == |time|
  {
    exists k :: a <= k < |t| && t[k] == Start(j) && time[k] < n
  }

  lemma EarlierOrThen(t: seq<Event>, a: nat, time: seq<nat>, n: nat, j: nat)
    requires a <= |t| == |time|
    ensures StartedEarlier(t, a, time, n + 1, j) <==> StartedEarlier(t, a, time, n, j) || j in StartedAt(t, a, time, n)
  {
  }

  lemma {:induction false} BeforeMeans(t: seq<Event>, a: nat, time: seq<nat>, total: nat, n: nat, j: nat)
    requires a <= |t| == |time| && n <= total
    ensures j in Before(Rounds(t, a, time, total), n) <==> StartedEarlier(t, a, time, n, j)
  {
    if n > 0 {
      BeforeMeans(t, a, time, total, n - 1, j);
      EarlierOrThen(t, a, time, n - 1, j);
      assert Rounds(t, a, time, total)[n-1] == StartedAt(t, a, time, n - 1);
    }
  }

  /** The jobs started at one moment of a legal unit-time run form a round. */
  lemma RunGivesRound(l: Limits, c: PipelineConfig, stage: nat, t: seq<Event>, a: nat, time: seq<nat>, total: nat,
                      x: nat)
    requires TimedStage(l, c, stage, t, a, time) && a < |t| && total == time[|t|-1] && x < total
    ensures IsRound(c, stage, c.maxParallelJobs, Rounds(t, a, time, total), x)
  {
    var rounds := Rounds(t, a, time, total);
    var k := FirstAfter(time, a, x);
    FirstAfterIsFinish(l, c, stage, t, a, time, x, k);
    RunningIsRound(l, c, stage, t, a, time, x, k);
    LegalAt(c, c.maxParallelJobs, t, k);
    forall j | j in rounds[x]
      ensures j !in Before(rounds, x)
    {
      BeforeMeans(t, a, time, total, x, j);
      var m :| a <= m < |t| && t[m] == Start(j) && time[m] == x;
      forall q | a <= q < |t| && t[q] == Start(j)
        ensures q == m
      {
        StartIsUnique(l, c, stage, t, a, time, m, q);
      }
    }
    if |rounds[x]| != c.maxParallelJobs {
      forall j: nat | InStageJob(c, stage, j) && j !in Before(rounds, x) + rounds[x]
        ensures Waits(c, stage, Before(rounds, x), j)
      {
        assert !Startable(c, ViewOf(t[..k]), j);
        LateJobWaits(l, c, stage, t, a, time, total, x, k, j);
      }
    }
  }

  /** A job of the stage that cannot start at the end of moment x waits for a need of a later moment. */
  lemma LateJobWaits(l: Limits, c: PipelineConfig, stage: nat, t: seq<Event>, a: nat, time: seq<nat>, total: nat,
                     x: nat, k: nat, j: nat)
    requires TimedStage(l, c, stage, t, a, time) && x < total && a <= k < |t| && time[k] > x
    requires forall m | a <= m < k :: time[m] <= x
    requires InStageJob(c, stage, j) && j !in Before(Rounds(t, a, time, total), x) + StartedAt(t, a, time, x)
    requires !Startable(c, ViewOf(t[..k]), j)
    ensures Waits(c, stage, Before(Rounds(t, a, time, total), x), j)
  {
    var v := ViewOf(t[..k]);
    StageFacts(l, c, stage, t, a, time, k);
    StageView(t, a, k);
    BeforeMeans(t, a, time, total, x, j);
    assert forall m | a <= m < k :: t[m] != Start(j);
    assert !NeedsDone(c, v.done, j);
    var n :| n in c.jobs[j].needs && !DoneName(c, v.done, n);
    var y := NeedInStage(l, c, stage, v.done, j, n);
    BeforeMeans(t, a, time, total, x, y);
    assert y !in v.done by { assert !DoneName(c, v.done, n); }
    assert !FinishesBefore(t, a, k, y);
    forall m | a <= m < |t| && t[m] == Start(y)
      ensures time[m] >= x
    {
      var f := StartedJobFinishes(l, c, stage, t, a, time, m);
      assert f >= k;
      assert time[f] >= time[k];
    }
    assert StageNeed(c, stage, j, y);
  }

  /** An undone need of a job of the stage, all earlier stages being done, belongs to the stage. */
  lemma NeedInStage(l: Limits, c: PipelineConfig, stage: nat, done: set<nat>, j: nat, n: string) returns (y: nat)
    requires Validated(l, c) && Consistent(c) && EarlierStagesDone(c, done, stage)
    requires InStageJob(c, stage, j) && n in c.jobs[j].needs && !DoneName(c, done, n)
    ensures InStageJob(c, stage, y) && c.jobs[y].name == n
  {
    assert n in Names(c.jobs)[..j];
    y :| 0 <= y < j && Names(c.jobs)[y] == n;
    assert StageIndex(c, c.jobs[y]) <= StageIndex(c, c.jobs[j]);
    assert y !in done;
  }

  ghost function StageJobs(c: PipelineConfig, stage: nat): (s: set<nat>)
    requires Consistent(c)
    ensures forall i: nat :: i in s <==> InStageJob(c, stage, i)
  {
    set i | i in Below(|c.jobs|) && InStageJob(c, stage, i)
  }

  /** The bound of list scheduling: m * T <= W + (m - 1) * L. */
  ghost predicate WithinListBound(m: nat, time: nat, work: nat, chain: nat) {
    m * time <= work + (m - 1) * chain
  }

  /** m * T <= W + (m - 1) * L, in products. */
  lemma ScheduleProductBound(c: PipelineConfig, stage: nat, limit: nat, rounds: seq<set<nat>>, chain: nat)
    requires Consistent(c) && IsSchedule(c, stage, limit, rounds) && limit >= 1
    requires Before(rounds, |rounds|) <= StageJobs(c, stage) && ChainsBoundedBy(c, stage, chain)
    ensures WithinListBound(limit, |rounds|, |StageJobs(c, stage)|, chain)
  {
    ScheduleBound(c, stage, limit, rounds, StageJobs(c, stage), chain);
    TimesIsProduct(limit, |rounds|);
    TimesIsProduct(limit - 1, chain);
  }

  lemma RunAsSchedule(l: Limits, c: PipelineConfig, stage: nat, t: seq<Event>, a: nat, time: seq<nat>)
    returns (rounds: seq<set<nat>>)
    requires TimedStage(l, c, stage, t, a, time) && a < |t|
    ensures |rounds| == time[|t|-1] && c.maxParallelJobs >= 1
    ensures IsSchedule(c, stage, c.maxParallelJobs, rounds)
    ensures Before(rounds, |rounds|) <= StageJobs(c, stage)
  {
    rounds := Rounds(t, a, time, time[|t|-1]);
    RunIsSchedule(l, c, stage, t, a, time);
    RunUsesStageJobs(l, c, stage, t, a, time);
  }

  lemma RunIsSchedule(l: Limits, c: PipelineConfig, stage: nat, t: seq<Event>, a: nat, time: seq<nat>)
    requires TimedStage(l, c, stage, t, a, time) && a < |t|
    ensures IsSchedule(c, stage, c.maxParallelJobs, Rounds(t, a, time, time[|t|-1]))
  {
    var total := time[|t|-1];
    forall x | 0 <= x < total
      ensures IsRound(c, stage, c.maxParallelJobs, Rounds(t, a, time, total), x)
    {
      RunGivesRound(l, c, stage, t, a, time, total, x);
    }
  }

  lemma RunUsesStageJobs(l: Limits, c: PipelineConfig, stage: nat, t: seq<Event>, a: nat, time: seq<nat>)
    requires TimedStage(l, c, stage, t, a, time) && a < |t|
    ensures Before(Rounds(t, a, time, time[|t|-1]), time[|t|-1]) <= StageJobs(c, stage)
  {
    var total := time[|t|-1];
    forall j | j in Before(Rounds(t, a, time, total), total)
      ensures j in StageJobs(c, stage)
    {
      BeforeMeans(t, a, time, total, total, j);
    }
  }

  /**
   * With unit-time jobs a stage of W jobs whose longest chain of same-stage needs has L jobs ends at a
   * time T with m * T <= W + (m - 1) * L, where m is the parallelism.
   */
  lemma UnitTimeStageBound(l: Limits, c: PipelineConfig, stage: nat, t: seq<Event>, a: nat, time: seq<nat>, chain: nat)
    requires TimedStage(l, c, stage, t, a, time) && a < |t| && ChainsBoundedBy(c, stage, chain)
    ensures WithinListBound(c.maxParallelJobs, time[|t|-1], |StageJobs(c, stage)|, chain)
  {
    var rounds := RunAsSchedule(l, c, stage, t, a, time);
    ScheduleProductBound(c, stage, c.maxParallelJobs, rounds, chain);
  }
}
