/** Runs of the queue: every interleaving of transactions, and what all of them keep. */
module QueueRuns {
  import opened Wrappers
  import opened Config
  import opened Queue

  datatype Step =
    | SubmitStep(submission: Submission)
    | ClaimStep(worker: nat, request: Option<nat>, supportsSpec: bool)
    | HeartbeatStep(pipeline: nat, worker: nat)
    | CancelStep(pipeline: nat)
    | FinishStep(pipeline: nat, worker: nat, success: bool)
    | ReapStep
    | CreateJobsStep(pipeline: nat, worker: nat, config: PipelineConfig)
    | JobStatusStep(job: nat, worker: nat, status: JobStatus)
    | LogStep(worker: nat, line: LogLine)
    | RegisterStep(worker: nat, os: string)
    | TouchStep(worker: nat)
    | StopStep(worker: nat)
    | DrainStep(worker: nat, draining: bool)
    | RemoveStep(worker: nat)
    | Tick(seconds: nat)

  function Apply(db: Db, s: Step): Db {
    match s
    case SubmitStep(submission) => Submit(db, submission)
    case ClaimStep(w, request, supportsSpec) => Claim(db, w, request, supportsSpec).0
    case HeartbeatStep(p, w) => Heartbeat(db, p, w)
    case CancelStep(p) => Cancel(db, p)
    case FinishStep(p, w, success) => Finish(db, p, w, success)
    case ReapStep => Reap(db)
    case CreateJobsStep(p, w, c) => CreateJobs(db, p, w, c).0
    case JobStatusStep(j, w, status) => SetJobStatus(db, j, w, status)
    case LogStep(w, line) => AppendLog(db, w, line)
    case RegisterStep(w, os) => Register(db, w, os)
    case TouchStep(w) => Touch(db, w)
    case StopStep(w) => Stop(db, w)
    case DrainStep(w, draining) => SetDraining(db, w, draining)
    case RemoveStep(w) => Remove(db, w)
    case Tick(d) => db.(now := db.now + d)
  }

  /** The database after all steps. */
  function Run(db: Db, steps: seq<Step>): Db
    decreases steps
  {
    if steps == [] then db else Run(Apply(db, steps[0]), steps[1..])
  }

  const EMPTY := Db([], [], map[], [], 0)

  // ---------- what one step may do to one pipeline ----------

  predicate SameSubmission(a: Pipeline, b: Pipeline) {
    && a.origin == b.origin && a.name == b.name && a.needs == b.needs && a.os == b.os && a.spec == b.spec
    && a.pushed == b.pushed && a.createdAt == b.createdAt && a.uuid == b.uuid
  }

  /** A claim assigned the row. */
  predicate Starts(a: Pipeline, b: Pipeline) {
    a.status.Queued? && b.status.Running?
  }

  /** The only ways one transaction at time now turns row a into row b. */
  predicate RowStep(a: Pipeline, b: Pipeline, now: nat) {
    || b == a
    || (a.status.Queued? && !a.cancelRequested && b.worker.Some? && b == Assigned(a, b.worker.value, b.request, now))
    || (a.status.Queued? && b == a.(status := Failed))
    || (Live(a, now) && !a.cancelRequested && b == a.(lease := Some(now + LEASE_SECONDS)))
    || b == CanceledRow(a)
    || (Live(a, now) && b == Closed(a, Succeeded))
    || (a.status.Running? && b == Closed(a, Failed))
  }

  lemma ClaimKeepsRows(db: Db, w: nat, request: Option<nat>, supportsSpec: bool)
    ensures var after := Claim(db, w, request, supportsSpec).0;
            |after.pipelines| == |db.pipelines| && after.now == db.now
            && forall i {:trigger after.pipelines[i]} | 0 <= i < |db.pipelines| ::
                 RowStep(db.pipelines[i], after.pipelines[i], db.now)
  {
  }

  lemma ClosingKeepsRows(db: Db, s: Step)
    requires s.FinishStep? || s.ReapStep?
    ensures |Apply(db, s).pipelines| == |db.pipelines| && Apply(db, s).now == db.now
    ensures forall i {:trigger Apply(db, s).pipelines[i]} | 0 <= i < |db.pipelines| ::
              RowStep(db.pipelines[i], Apply(db, s).pipelines[i], db.now)
  {
  }

  /** The complete list of ways in which a transaction may change a row or add one. */
  lemma StepKeepsRows(db: Db, s: Step)
    ensures |db.pipelines| <= |Apply(db, s).pipelines| && db.now <= Apply(db, s).now
    ensures forall i {:trigger Apply(db, s).pipelines[i]} | 0 <= i < |db.pipelines| ::
              RowStep(db.pipelines[i], Apply(db, s).pipelines[i], db.now)
    ensures |db.pipelines| < |Apply(db, s).pipelines| ==>
              s.SubmitStep? && Apply(db, s).pipelines == db.pipelines + [SubmittedRow(s.submission, db.now)]
  {
    if s.ClaimStep? {
      ClaimKeepsRows(db, s.worker, s.request, s.supportsSpec);
    } else if s.FinishStep? || s.ReapStep? {
      ClosingKeepsRows(db, s);
    }
  }

  // ---------- one-way statuses ----------

  /** Statuses only move forward, and terminal ones not at all. */
  predicate Forward(a: PipelineStatus, b: PipelineStatus) {
    a == b || a.Queued? || (a.Running? && b.Terminal())
  }

  /** Once a row left the queue its worker and request are fixed; a finished row never changes again. */
  predicate Later(a: Pipeline, b: Pipeline) {
    && SameSubmission(a, b) && Forward(a.status, b.status)
    && (!a.status.Queued? ==> b.worker == a.worker && b.request == a.request)
    && (a.status.Terminal() ==> b == a)
    && (a.cancelRequested ==> b.cancelRequested)
  }

  lemma RowStepIsLater(a: Pipeline, b: Pipeline, now: nat)
    requires RowStep(a, b, now)
    ensures Later(a, b)
  {
  }

  lemma LaterTransitive(a: Pipeline, b: Pipeline, c: Pipeline)
    requires Later(a, b) && Later(b, c)
    ensures Later(a, c)
  {
  }

  lemma {:induction false} RunKeepsRows(db: Db, steps: seq<Step>)
    ensures |db.pipelines| <= |Run(db, steps).pipelines| && db.now <= Run(db, steps).now
    ensures forall i {:trigger Run(db, steps).pipelines[i]} | 0 <= i < |db.pipelines| ::
              Later(db.pipelines[i], Run(db, steps).pipelines[i])
    decreases steps
  {
    if steps != [] {
      var next := Apply(db, steps[0]);
      StepKeepsRows(db, steps[0]);
      RunKeepsRows(next, steps[1..]);
      forall i | 0 <= i < |db.pipelines|
        ensures Later(db.pipelines[i], Run(db, steps).pipelines[i])
      {
        assert RowStep(db.pipelines[i], next.pipelines[i], db.now);
        RowStepIsLater(db.pipelines[i], next.pipelines[i], db.now);
        assert Later(next.pipelines[i], Run(next, steps[1..]).pipelines[i]);
        LaterTransitive(db.pipelines[i], next.pipelines[i], Run(next, steps[1..]).pipelines[i]);
      }
    }
  }

  lemma {:induction false} RunConcat(db: Db, a: seq<Step>, b: seq<Step>)
    ensures Run(db, a + b) == Run(Run(db, a), b)
    decreases a
  {
    if a == [] {
      assert a + b == b;
    } else {
      assert (a + b)[1..] == a[1..] + b;
      RunConcat(Apply(db, a[0]), a[1..], b);
    }
  }

  /** The k-th step of a run assigns row p. */
  predicate EntersRunning(db: Db, steps: seq<Step>, k: nat, p: nat)
    requires k < |steps|
  {
    var before, after := Run(db, steps[..k]), Run(db, steps[..k+1]);
    p < |before.pipelines| && p < |after.pipelines| && Starts(before.pipelines[p], after.pipelines[p])
  }

  /** Each pipeline enters running at most once. */
  lemma EntersRunningOnce(db: Db, steps: seq<Step>, k: nat, m: nat, p: nat)
    requires k < |steps| && m < |steps|
    requires EntersRunning(db, steps, k, p) && EntersRunning(db, steps, m, p)
    ensures k == m
  {
    if k < m {
      LaterStart(db, steps, k, m, p);
    } else if m < k {
      LaterStart(db, steps, m, k, p);
    }
  }

  lemma LaterStart(db: Db, steps: seq<Step>, k: nat, m: nat, p: nat)
    requires k < m < |steps| && EntersRunning(db, steps, k, p)
    ensures !EntersRunning(db, steps, m, p)
  {
    assert steps[..m] == steps[..k+1] + steps[k+1..m];
    RunConcat(db, steps[..k+1], steps[k+1..m]);
    RunKeepsRows(Run(db, steps[..k+1]), steps[k+1..m]);
  }

  // ---------- invariants of rows ----------

  predicate RowOk(r: Pipeline, now: nat) {
    && (r.status.Running? ==> r.worker.Some? && r.lease.Some? && r.lease.value <= now + LEASE_SECONDS)
    && (!r.status.Running? ==> r.lease.None?)
    && (r.status.Queued? ==> !r.cancelRequested && r.worker.None? && r.request.None?)
    && (r.status.Terminal() ==> (r.status.Canceled? <==> r.cancelRequested))
    && (r.status.Succeeded? ==> r.worker.Some?)
    && (r.worker.None? ==> r.request.None?)
  }

  /** A queued pipeline has no jobs, a finished one no open jobs. */
  predicate JobFits(rows: seq<Pipeline>, j: Job) {
    && j.pipeline < |rows| && !rows[j.pipeline].status.Queued?
    && (rows[j.pipeline].status.Terminal() ==> !j.status.Open())
  }

  predicate SameClaim(a: Pipeline, b: Pipeline) {
    a.worker.Some? && a.request.Some? && a.worker == b.worker && a.request == b.request
  }

  /** Two live rows of one worker that were both claimed with a request. */
  predicate BothLive(a: Pipeline, b: Pipeline, now: nat) {
    && Live(a, now) && Live(b, now) && a.worker.Some? && a.worker == b.worker && a.request.Some? && b.request.Some?
  }

  predicate RowsOk(db: Db) {
    && (forall i | 0 <= i < |db.pipelines| :: RowOk(db.pipelines[i], db.now))
    && (forall k | 0 <= k < |db.jobs| :: JobFits(db.pipelines, db.jobs[k]))
  }

  predicate Exclusive(db: Db) {
    && (forall i, j | 0 <= i < j < |db.pipelines| :: !SameClaim(db.pipelines[i], db.pipelines[j]))
    && (forall i, j | 0 <= i < j < |db.pipelines| :: !BothLive(db.pipelines[i], db.pipelines[j], db.now))
  }

  predicate Sound(db: Db) {
    RowsOk(db) && Exclusive(db)
  }

  lemma StepKeepsRowOk(a: Pipeline, b: Pipeline, before: nat, after: nat)
    requires RowOk(a, before) && RowStep(a, b, before) && before <= after
    ensures RowOk(b, after)
  {
  }

  lemma StepKeepsRowsOk(db: Db, s: Step)
    requires RowsOk(db)
    ensures forall i {:trigger Apply(db, s).pipelines[i]} | 0 <= i < |Apply(db, s).pipelines| ::
              RowOk(Apply(db, s).pipelines[i], Apply(db, s).now)
  {
    StepKeepsRows(db, s);
    forall i | 0 <= i < |Apply(db, s).pipelines|
      ensures RowOk(Apply(db, s).pipelines[i], Apply(db, s).now)
    {
      if i < |db.pipelines| {
        StepKeepsRowOk(db.pipelines[i], Apply(db, s).pipelines[i], db.now, Apply(db, s).now);
      }
    }
  }

  /** A job of a pipeline that the step ends is closed by the same step. */
  lemma StepKeepsJobs(db: Db, s: Step, k: nat)
    requires RowsOk(db) && k < |Apply(db, s).jobs|
    ensures JobFits(Apply(db, s).pipelines, Apply(db, s).jobs[k])
  {
    if k < |db.jobs| {
      OldJobFits(db, s, k);
    } else {
      NewJobFits(db, s, k);
    }
  }

  lemma NewJobFits(db: Db, s: Step, k: nat)
    requires RowsOk(db) && |db.jobs| <= k < |Apply(db, s).jobs|
    ensures JobFits(Apply(db, s).pipelines, Apply(db, s).jobs[k])
  {
    assert s.CreateJobsStep? && Apply(db, s).jobs[k].pipeline == s.pipeline;
  }

  lemma OldJobFits(db: Db, s: Step, k: nat)
    requires RowsOk(db) && k < |db.jobs|
    ensures k < |Apply(db, s).jobs| && JobFits(Apply(db, s).pipelines, Apply(db, s).jobs[k])
  {
    var p := db.jobs[k].pipeline;
    assert JobFits(db.pipelines, db.jobs[k]);
    assert RowOk(db.pipelines[p], db.now);
    if s.FinishStep? || s.ReapStep? {
      ClosingFitsJob(db, s, k);
    } else {
      StepKeepsRows(db, s);
      assert RowStep(db.pipelines[p], Apply(db, s).pipelines[p], db.now);
      OnlyClosingEnds(db, s, p);
    }
  }

  lemma ClosingFitsJob(db: Db, s: Step, k: nat)
    requires RowsOk(db) && k < |db.jobs| && (s.FinishStep? || s.ReapStep?)
    ensures k < |Apply(db, s).jobs| && JobFits(Apply(db, s).pipelines, Apply(db, s).jobs[k])
  {
    assert JobFits(db.pipelines, db.jobs[k]);
  }

  /** Only finishing and reaping end a running pipeline. */
  lemma OnlyClosingEnds(db: Db, s: Step, p: nat)
    requires p < |db.pipelines| && !s.FinishStep? && !s.ReapStep?
    ensures db.pipelines[p].status.Running? ==> Apply(db, s).pipelines[p].status.Running?
  {
  }

  /** Only a claim touches the worker or the request of a row, or starts it. */
  lemma OthersStartNothing(db: Db, s: Step, i: nat)
    requires i < |db.pipelines| && !s.ClaimStep?
    ensures i < |Apply(db, s).pipelines|
    ensures var (a, b) := (db.pipelines[i], Apply(db, s).pipelines[i]);
            b.worker == a.worker && b.request == a.request && !Starts(a, b)
  {
  }

  /** A claim leaves the rows alone, or fails dependents, or fails them and assigns its candidate. */
  lemma ClaimCases(db: Db, w: nat, request: Option<nat>, supportsSpec: bool)
    ensures var ((after, r), rows) := (Claim(db, w, request, supportsSpec), FailDependents(db.pipelines));
            || after.pipelines == db.pipelines
            || (r.None? && after.pipelines == rows)
            || (Reaches(db, w, request) && r.Some? && r.value < |rows| && rows[r.value].status.Queued?
                && after.pipelines == rows[r.value := Assigned(rows[r.value], w, request, db.now)])
  {
  }

  lemma ClaimStarts(db: Db, w: nat, request: Option<nat>, supportsSpec: bool, i: nat)
    requires i < |db.pipelines|
    requires var (a, b) := (db.pipelines[i], Claim(db, w, request, supportsSpec).0.pipelines[i]);
             b.worker != a.worker || b.request != a.request || Starts(a, b)
    ensures Reaches(db, w, request) && Claim(db, w, request, supportsSpec).1 == Some(i)
    ensures var after := Claim(db, w, request, supportsSpec).0;
            && after.pipelines[i].worker == Some(w) && after.pipelines[i].request == request
            && Starts(db.pipelines[i], after.pipelines[i])
  {
    ClaimCases(db, w, request, supportsSpec);
    var rows := FailDependents(db.pipelines);
    assert rows[i] == FailIfDead(db.pipelines, db.pipelines[i]);
  }

  lemma ClaimStartsNoOther(db: Db, w: nat, request: Option<nat>, supportsSpec: bool, i: nat)
    requires Reaches(db, w, request) && Claim(db, w, request, supportsSpec).1 == Some(i)
    ensures var after := Claim(db, w, request, supportsSpec).0;
            |after.pipelines| == |db.pipelines| && forall j | 0 <= j < |db.pipelines| && j != i ::
              after.pipelines[j] == FailIfDead(db.pipelines, db.pipelines[j])
  {
  }

  /** A step that starts a row is the claim by the row's worker, and starts no other row. */
  lemma StartsByClaim(db: Db, s: Step, i: nat)
    requires i < |db.pipelines|
    requires Apply(db, s).pipelines[i].worker != db.pipelines[i].worker
          || Apply(db, s).pipelines[i].request != db.pipelines[i].request
          || Starts(db.pipelines[i], Apply(db, s).pipelines[i])
    ensures s.ClaimStep? && Reaches(db, s.worker, s.request)
    ensures Claim(db, s.worker, s.request, s.supportsSpec).1 == Some(i)
    ensures Apply(db, s).pipelines[i].worker == Some(s.worker) && Apply(db, s).pipelines[i].request == s.request
    ensures Starts(db.pipelines[i], Apply(db, s).pipelines[i])
    ensures forall j | 0 <= j < |db.pipelines| && j != i ::
              Apply(db, s).pipelines[j] == FailIfDead(db.pipelines, db.pipelines[j])
  {
    if s.ClaimStep? {
      ClaimStarts(db, s.worker, s.request, s.supportsSpec, i);
      ClaimStartsNoOther(db, s.worker, s.request, s.supportsSpec, i);
    } else {
      OthersStartNothing(db, s, i);
    }
  }

  lemma StepKeepsClaimsApart(db: Db, s: Step, i: nat, j: nat)
    requires Sound(db) && i < |Apply(db, s).pipelines| && j < |Apply(db, s).pipelines| && i != j
    ensures !SameClaim(Apply(db, s).pipelines[i], Apply(db, s).pipelines[j])
  {
    StepKeepsRows(db, s);
    if i < |db.pipelines| && j < |db.pipelines| {
      assert !SameClaim(db.pipelines[i], db.pipelines[j]);
      var a, b := Apply(db, s).pipelines[i], Apply(db, s).pipelines[j];
      if a.worker != db.pipelines[i].worker || a.request != db.pipelines[i].request {
        StartsByClaim(db, s, i);
      } else if b.worker != db.pipelines[j].worker || b.request != db.pipelines[j].request {
        StartsByClaim(db, s, j);
      }
    }
  }

  /** A live row that did not just start was live before: an expired lease is never revived. */
  lemma LiveWasLive(a: Pipeline, b: Pipeline, before: nat, after: nat)
    requires RowStep(a, b, before) && before <= after && Live(b, after)
    ensures Starts(a, b) || (Live(a, before) && a.worker == b.worker && a.request == b.request)
  {
  }

  /** A worker that is given row i under a request holds nothing at that moment. */
  lemma StartMeansIdle(db: Db, s: Step, i: nat, j: nat)
    requires i < |db.pipelines| && Starts(db.pipelines[i], Apply(db, s).pipelines[i])
    requires Apply(db, s).pipelines[i].request.Some? && Apply(db, s).pipelines[i].worker.Some?
    ensures !Holds(db, j, Apply(db, s).pipelines[i].worker.value)
  {
    StartsByClaim(db, s, i);
    assert !Busy(db, s.worker);
  }

  lemma StartedIsAlone(db: Db, s: Step, i: nat, j: nat)
    requires i < |db.pipelines| && j < |db.pipelines| && i != j
    requires Starts(db.pipelines[i], Apply(db, s).pipelines[i])
    ensures j < |Apply(db, s).pipelines|
    ensures !BothLive(Apply(db, s).pipelines[i], Apply(db, s).pipelines[j], Apply(db, s).now)
  {
    StepKeepsRows(db, s);
    StartsByClaim(db, s, i);
    var (a, b) := (Apply(db, s).pipelines[i], Apply(db, s).pipelines[j]);
    if a.request.Some? {
      StartMeansIdle(db, s, i, j);
      assert b == FailIfDead(db.pipelines, db.pipelines[j]);
      assert b.worker == a.worker ==> !Live(db.pipelines[j], db.now);
    }
  }

  lemma StillOneLive(a: Pipeline, b: Pipeline, c: Pipeline, d: Pipeline, before: nat, after: nat)
    requires RowStep(a, c, before) && RowStep(b, d, before) && before <= after && !BothLive(a, b, before)
    requires !Starts(a, c) && !Starts(b, d)
    ensures !BothLive(c, d, after)
  {
    if BothLive(c, d, after) {
      LiveWasLive(a, c, before, after);
      LiveWasLive(b, d, before, after);
    }
  }

  lemma StepKeepsOneLive(db: Db, s: Step, i: nat, j: nat)
    requires Sound(db) && i < |Apply(db, s).pipelines| && j < |Apply(db, s).pipelines| && i != j
    ensures !BothLive(Apply(db, s).pipelines[i], Apply(db, s).pipelines[j], Apply(db, s).now)
  {
    StepKeepsRows(db, s);
    var after := Apply(db, s);
    if i < |db.pipelines| && j < |db.pipelines| {
      if Starts(db.pipelines[i], after.pipelines[i]) {
        StartedIsAlone(db, s, i, j);
      } else if Starts(db.pipelines[j], after.pipelines[j]) {
        StartedIsAlone(db, s, j, i);
      } else {
        StillOneLive(db.pipelines[i], db.pipelines[j], after.pipelines[i], after.pipelines[j], db.now, after.now);
      }
    }
  }

  lemma StepKeepsSound(db: Db, s: Step)
    requires Sound(db)
    ensures Sound(Apply(db, s))
  {
    StepKeepsRowsOk(db, s);
    forall k | 0 <= k < |Apply(db, s).jobs|
      ensures JobFits(Apply(db, s).pipelines, Apply(db, s).jobs[k])
    {
      StepKeepsJobs(db, s, k);
    }
    StepKeepsExclusive(db, s);
  }

  lemma StepKeepsExclusive(db: Db, s: Step)
    requires Sound(db)
    ensures Exclusive(Apply(db, s))
  {
    forall i, j | 0 <= i < j < |Apply(db, s).pipelines|
      ensures !SameClaim(Apply(db, s).pipelines[i], Apply(db, s).pipelines[j])
      ensures !BothLive(Apply(db, s).pipelines[i], Apply(db, s).pipelines[j], Apply(db, s).now)
    {
      StepKeepsClaimsApart(db, s, i, j);
      StepKeepsOneLive(db, s, i, j);
    }
  }

  /** Every run keeps the invariants. */
  lemma {:induction false} RunKeepsSound(db: Db, steps: seq<Step>)
    requires Sound(db)
    ensures Sound(Run(db, steps))
    decreases steps
  {
    if steps != [] {
      StepKeepsSound(db, steps[0]);
      RunKeepsSound(Apply(db, steps[0]), steps[1..]);
    }
  }

  // ---------- consequences for every reachable state ----------

  // ---------- one live pipeline per worker ----------

  predicate HoldsTwo(db: Db, w: nat) {
    exists p, q :: 0 <= p < q < |db.pipelines| && Holds(db, p, w) && Holds(db, q, w)
  }

  /** A claim without a request, of a busy worker that may be given something and for which there is something. */
  predicate IsSecondClaim(db: Db, s: Step, w: nat) {
    && s.ClaimStep? && s.worker == w && s.request.None? && Busy(db, w)
    && (w in db.runners ==> !db.runners[w].draining)
    && Candidate(FailDependents(db.pipelines), db.runners, w, s.supportsSpec, |db.pipelines|).Some?
  }

  /** Whatever w holds after a step it held before, or the step is the claim that gives it to w. */
  lemma HeldWasHeld(db: Db, s: Step, p: nat, w: nat)
    requires Holds(Apply(db, s), p, w)
    ensures Holds(db, p, w) || (s.ClaimStep? && s.worker == w && Claim(db, w, s.request, s.supportsSpec).1 == Some(p)
                                && Reaches(db, w, s.request) && db.pipelines[p].status.Queued?)
  {
    StepKeepsRows(db, s);
    if p < |db.pipelines| {
      assert RowStep(db.pipelines[p], Apply(db, s).pipelines[p], db.now);
      LiveWasLive(db.pipelines[p], Apply(db, s).pipelines[p], db.now, Apply(db, s).now);
      if Starts(db.pipelines[p], Apply(db, s).pipelines[p]) {
        StartsByClaim(db, s, p);
      }
    }
  }

  lemma TwoComeFromSecondClaim(db: Db, s: Step, w: nat)
    requires !HoldsTwo(db, w) && HoldsTwo(Apply(db, s), w)
    ensures IsSecondClaim(db, s, w)
  {
    var after := Apply(db, s);
    var p: nat, q: nat :| p < q < |after.pipelines| && Holds(after, p, w) && Holds(after, q, w);
    HeldWasHeld(db, s, p, w);
    HeldWasHeld(db, s, q, w);
    assert Busy(db, w);
  }

  /** A claim that reaches the update hands its candidate to the worker and leaves what it held. */
  lemma ClaimHandsOut(db: Db, w: nat, request: Option<nat>, supportsSpec: bool, p: nat, q: nat)
    requires Reaches(db, w, request) && Holds(db, p, w)
    requires Candidate(FailDependents(db.pipelines), db.runners, w, supportsSpec, |db.pipelines|) == Some(q)
    ensures p != q && Holds(Claim(db, w, request, supportsSpec).0, p, w)
    ensures Holds(Claim(db, w, request, supportsSpec).0, q, w)
  {
    var rows := FailDependents(db.pipelines);
    assert rows[p] == FailIfDead(db.pipelines, db.pipelines[p]) == db.pipelines[p];
    assert rows[q].status.Queued?;
  }

  lemma SecondClaimGivesTwo(db: Db, s: Step, w: nat)
    requires IsSecondClaim(db, s, w)
    ensures HoldsTwo(Apply(db, s), w)
  {
    var p: nat :| p < |db.pipelines| && Holds(db, p, w);
    var q := Candidate(FailDependents(db.pipelines), db.runners, w, s.supportsSpec, |db.pipelines|).value;
    ClaimHandsOut(db, w, None, s.supportsSpec, p, q);
    HeldBoth(Apply(db, s), p, q, w);
  }

  /** A step gives a worker a second live pipeline exactly when it is such a claim. */
  lemma TwoAfterStepExactly(db: Db, s: Step, w: nat)
    requires !HoldsTwo(db, w)
    ensures HoldsTwo(Apply(db, s), w) <==> IsSecondClaim(db, s, w)
  {
    if HoldsTwo(Apply(db, s), w) {
      TwoComeFromSecondClaim(db, s, w);
    }
    if IsSecondClaim(db, s, w) {
      SecondClaimGivesTwo(db, s, w);
    }
  }

  ghost predicate EverHoldsTwo(db: Db, steps: seq<Step>, w: nat) {
    exists k {:trigger steps[..k]} :: 0 <= k <= |steps| && HoldsTwo(Run(db, steps[..k]), w)
  }

  ghost predicate MakesSecondClaim(db: Db, steps: seq<Step>, w: nat) {
    exists k {:trigger steps[k]} :: 0 <= k < |steps| && IsSecondClaim(Run(db, steps[..k]), steps[k], w)
  }

  lemma RunSnoc(db: Db, steps: seq<Step>, k: nat)
    requires k < |steps|
    ensures Run(db, steps[..k+1]) == Apply(Run(db, steps[..k]), steps[k])
  {
    assert steps[..k+1] == steps[..k] + [steps[k]];
    RunConcat(db, steps[..k], [steps[k]]);
    assert [steps[k]][1..] == [];
  }

  lemma {:induction false} FirstSecondClaim(db: Db, steps: seq<Step>, w: nat, k: nat)
    requires !HoldsTwo(db, w) && k <= |steps| && HoldsTwo(Run(db, steps[..k]), w)
    ensures MakesSecondClaim(db, steps, w)
  {
    if k > 0 {
      RunSnoc(db, steps, k - 1);
      if HoldsTwo(Run(db, steps[..k-1]), w) {
        FirstSecondClaim(db, steps, w, k - 1);
      } else {
        TwoAfterStepExactly(Run(db, steps[..k-1]), steps[k-1], w);
        assert IsSecondClaim(Run(db, steps[..k-1]), steps[k-1], w);
      }
    }
  }

  /** Over every run: a worker ever holds two live pipelines exactly when it makes such a claim. */
  lemma TwoInRunExactly(db: Db, steps: seq<Step>, w: nat)
    requires !HoldsTwo(db, w)
    ensures EverHoldsTwo(db, steps, w) <==> MakesSecondClaim(db, steps, w)
  {
    if EverHoldsTwo(db, steps, w) {
      var k: nat :| k <= |steps| && HoldsTwo(Run(db, steps[..k]), w);
      FirstSecondClaim(db, steps, w, k);
    }
    if MakesSecondClaim(db, steps, w) {
      var k: nat :| k < |steps| && IsSecondClaim(Run(db, steps[..k]), steps[k], w);
      RunSnoc(db, steps, k);
      SecondClaimGivesTwo(Run(db, steps[..k]), steps[k], w);
      assert HoldsTwo(Run(db, steps[..k+1]), w);
    }
  }

  /** A worker that never claims without a request while it is busy has at most one live pipeline at any moment. */
  lemma OneLivePipelinePerRunner(steps: seq<Step>, w: nat, p: nat, q: nat)
    requires Holds(Run(EMPTY, steps), p, w) && Holds(Run(EMPTY, steps), q, w)
    requires forall k | 0 <= k < |steps| && steps[k].ClaimStep? && steps[k].worker == w ::
               steps[k].request.Some? || !Busy(Run(EMPTY, steps[..k]), w)
    ensures p == q
  {
    TwoInRunExactly(EMPTY, steps, w);
    assert steps[..|steps|] == steps;
    HeldBoth(Run(EMPTY, steps), p, q, w);
  }

  lemma HeldBoth(db: Db, p: nat, q: nat, w: nat)
    requires Holds(db, p, w) && Holds(db, q, w)
    ensures p != q ==> HoldsTwo(db, w)
  {
    assert p < q ==> HoldsTwo(db, w);
    assert q < p ==> HoldsTwo(db, w);
  }

  // ---------- anonymous claims ----------

  /** A pipeline that any runner can take: no needs, no operating system, no frozen specification. */
  function Plain(uuid: nat): Submission {
    Submission(Origin("lores://repository", None, "revision", None), None, [], None, None, false, uuid)
  }

  /** With a free row in the queue an anonymous claim of a worker that is not draining starts some queued row. */
  lemma AnonymousClaimStarts(db: Db, w: nat, q: nat) returns (p: nat)
    requires q < |db.pipelines| && FreeRow(db.pipelines[q]) && w !in db.runners
    ensures var after := Claim(db, w, None, true).0;
            && p < |db.pipelines| && Starts(db.pipelines[p], after.pipelines[p]) && Holds(after, p, w)
            && |after.pipelines| == |db.pipelines| && after.runners == db.runners && after.now == db.now
            && forall j | 0 <= j < |db.pipelines| && j != p ::
                 after.pipelines[j] == FailIfDead(db.pipelines, db.pipelines[j])
  {
    var rows := FailDependents(db.pipelines);
    assert rows[q] == FailIfDead(db.pipelines, db.pipelines[q]) == db.pipelines[q];
    assert Claimable(rows, db.runners, w, true, rows[q]);
    p := Candidate(rows, db.runners, w, true, |rows|).value;
    assert rows[p] == FailIfDead(db.pipelines, db.pipelines[p]);
  }

  /** Two free rows and two anonymous claims: the worker holds both, so the identities above are needed. */
  lemma AnonymousClaimsTakeTwo(w: nat)
    ensures var claim := ClaimStep(w, None, true);
            var end := Run(EMPTY, [SubmitStep(Plain(0)), SubmitStep(Plain(1)), claim, claim]);
            Holds(end, 0, w) && Holds(end, 1, w)
  {
    var two := Submit(Submit(EMPTY, Plain(0)), Plain(1));
    assert two.pipelines == [SubmittedRow(Plain(0), 0), SubmittedRow(Plain(1), 0)];
    var p := AnonymousClaimStarts(two, w, 0);
    var one := Claim(two, w, None, true).0;
    assert one.pipelines[1 - p] == two.pipelines[1 - p];
    var q := AnonymousClaimStarts(one, w, 1 - p);
    assert q == 1 - p;
    assert Claim(one, w, None, true).0.pipelines[p] == one.pipelines[p];
    RunOfFour(EMPTY, SubmitStep(Plain(0)), SubmitStep(Plain(1)), ClaimStep(w, None, true), ClaimStep(w, None, true));
  }

  lemma RunOfFour(db: Db, a: Step, b: Step, c: Step, d: Step)
    ensures Run(db, [a, b, c, d]) == Apply(Apply(Apply(Apply(db, a), b), c), d)
  {
    var e := Apply(Apply(Apply(db, a), b), c);
    assert [a, b, c, d][1..] == [b, c, d] && [b, c, d][1..] == [c, d] && [c, d][1..] == [d] && [d][1..] == [];
    assert Run(e, [d]) == Run(Apply(e, d), []);
    assert Run(Apply(Apply(db, a), b), [c, d]) == Run(e, [d]);
    assert Run(Apply(db, a), [b, c, d]) == Run(Apply(Apply(db, a), b), [c, d]);
  }

  /** A pipeline that left the queue and is not held by w is never held by w again. */
  lemma {:induction false} LostLeaseIsNeverRegained(db: Db, steps: seq<Step>, p: nat, w: nat)
    requires p < |db.pipelines| && !db.pipelines[p].status.Queued? && !Holds(db, p, w)
    ensures !Holds(Run(db, steps), p, w)
    decreases steps
  {
    if steps != [] {
      var next := Apply(db, steps[0]);
      StepKeepsRows(db, steps[0]);
      assert RowStep(db.pipelines[p], next.pipelines[p], db.now);
      if Holds(next, p, w) {
        LiveWasLive(db.pipelines[p], next.pipelines[p], db.now, next.now);
      }
      LostLeaseIsNeverRegained(next, steps[1..], p, w);
    }
  }

  /** What a worker may send about pipeline p. */
  predicate ReportOn(db: Db, s: Step, p: nat, w: nat) {
    || s == HeartbeatStep(p, w)
    || (s.FinishStep? && s.pipeline == p && s.worker == w)
    || (s.CreateJobsStep? && s.pipeline == p && s.worker == w)
    || (s.JobStatusStep? && s.worker == w && s.job < |db.jobs| && db.jobs[s.job].pipeline == p)
    || (s.LogStep? && s.worker == w && s.line.pipeline == p)
  }

  /** Fencing: after the lease was lost, whatever happened since, no report of the old holder has any effect. */
  lemma OldHolderHasNoEffect(db: Db, steps: seq<Step>, p: nat, w: nat, report: Step)
    requires p < |db.pipelines| && !db.pipelines[p].status.Queued? && !Holds(db, p, w)
    requires ReportOn(Run(db, steps), report, p, w)
    ensures Apply(Run(db, steps), report) == Run(db, steps)
  {
    LostLeaseIsNeverRegained(db, steps, p, w);
  }

  /** A claim only ever hands out a pipeline that is running for this worker and this request. */
  lemma ClaimHandsOutActive(db: Db, w: nat, request: Option<nat>, supportsSpec: bool)
    requires Sound(db)
    ensures var (after, r) := Claim(db, w, request, supportsSpec);
            r.Some? ==> (Active(after, r.value, w) && after.pipelines[r.value].request == request
                         && (after.pipelines[r.value].spec.Some? ==> supportsSpec))
  {
    var (after, r) := Claim(db, w, request, supportsSpec);
    if r.Some? && after != db {
      assert Candidate(FailDependents(db.pipelines), db.runners, w, supportsSpec, |db.pipelines|) == r;
    }
  }

  /** A claim or a heartbeat of the active holder keeps the pipeline its own for the length of a lease. */
  lemma LeaseLasts(db: Db, p: nat, w: nat, request: Option<nat>, supportsSpec: bool, seconds: nat)
    requires seconds < LEASE_SECONDS
    ensures Active(db, p, w) ==> Active(Apply(Heartbeat(db, p, w), Tick(seconds)), p, w)
    ensures p < |db.pipelines| && db.pipelines[p].status.Queued? && Claim(db, w, request, supportsSpec).1 == Some(p) ==>
              Active(Apply(Claim(db, w, request, supportsSpec).0, Tick(seconds)), p, w)
  {
  }

  /** Once the lease has run out without a heartbeat, the next reap ends the pipeline. */
  lemma SilentHolderIsReaped(db: Db, p: nat, seconds: nat)
    requires Sound(db) && p < |db.pipelines| && db.pipelines[p].status.Running? && seconds > LEASE_SECONDS
    ensures Reap(Apply(db, Tick(seconds))).pipelines[p].status.Terminal()
  {
    assert RowOk(db.pipelines[p], db.now);
  }

  /** Asking again with the same identity changes nothing and gives the same pipeline, or none once it is inactive. */
  lemma ReplayedClaimIsIdempotent(db: Db, w: nat, request: nat, supportsSpec: bool, later: seq<Step>, again: bool)
    requires Sound(db) && Claim(db, w, Some(request), supportsSpec).1.Some?
    ensures var (after, r) := Claim(db, w, Some(request), supportsSpec);
            var (replayed, q) := Claim(Run(after, later), w, Some(request), again);
            replayed == Run(after, later) && (q.Some? ==> q == r)
            && (Active(Run(after, later), r.value, w) && again ==> q == r)
  {
    var (after, r) := Claim(db, w, Some(request), supportsSpec);
    ClaimHandsOutActive(db, w, Some(request), supportsSpec);
    StepKeepsSound(db, ClaimStep(w, Some(request), supportsSpec));
    RunKeepsRows(after, later);
    RunKeepsSound(after, later);
    var end := Run(after, later);
    assert Later(after.pipelines[r.value], end.pipelines[r.value]);
    var previous := Previous(end.pipelines, w, request, |end.pipelines|);
    assert previous.Some? && SameClaim(end.pipelines[r.value], end.pipelines[previous.value]);
    assert previous == r;
  }

  /** Row i was created last of all rows of that name and origin, the greater id deciding between equals. */
  predicate IsLastRun(rows: seq<Pipeline>, o: Origin, name: string, i: nat) {
    && i < |rows| && rows[i].origin == o && rows[i].name == Some(name)
    && forall j | 0 <= j < |rows| && rows[j].origin == o && rows[j].name == Some(name) ::
         || rows[j].createdAt < rows[i].createdAt
         || (rows[j].createdAt == rows[i].createdAt && rows[j].uuid <= rows[i].uuid)
  }

  predicate UniqueIds(rows: seq<Pipeline>) {
    forall i, j | 0 <= i < j < |rows| :: rows[i].uuid != rows[j].uuid
  }

  lemma OneLastRun(rows: seq<Pipeline>, o: Origin, name: string, i: nat, j: nat)
    requires UniqueIds(rows) && IsLastRun(rows, o, name, i) && IsLastRun(rows, o, name, j)
    ensures i == j
  {
    assert rows[i].uuid == rows[j].uuid;
  }

  /** A need is judged by the last run of that name: it must have succeeded, if there is one. */
  lemma NeedIsJudgedByLastRun(rows: seq<Pipeline>, o: Origin, name: string)
    requires UniqueIds(rows)
    ensures NeedMet(rows, o, name) <==> forall i: nat | IsLastRun(rows, o, name, i) :: rows[i].status.Succeeded?
    ensures NeedDead(rows, o, name)
       <==> exists i: nat :: IsLastRun(rows, o, name, i) && (rows[i].status.Failed? || rows[i].status.Canceled?)
    ensures (forall i: nat :: !IsLastRun(rows, o, name, i))
       <==> forall i | 0 <= i < |rows| :: rows[i].origin != o || rows[i].name != Some(name)
  {
    var latest := Latest(rows, o, name);
    if latest.Some? {
      assert IsLastRun(rows, o, name, latest.value);
      forall i: nat | IsLastRun(rows, o, name, i)
        ensures i == latest.value
      {
        OneLastRun(rows, o, name, i, latest.value);
      }
    }
  }

  /** What a worker may be given, read off the row and the runner. */
  predicate FitsWorker(row: Pipeline, runners: map<nat, Runner>, w: nat, supportsSpec: bool) {
    && row.status.Queued? && !row.cancelRequested && (row.spec.Some? ==> supportsSpec)
    && (row.os.Some? ==> w in runners && runners[w].os == row.os.value && !runners[w].stopped)
  }

  /** A fresh assignment fits the worker, has all its needs met, and was created before every other that does. */
  lemma ClaimPicksOldestFit(db: Db, w: nat, request: Option<nat>, supportsSpec: bool, i: nat)
    requires i < |db.pipelines| && Claim(db, w, request, supportsSpec).1 == Some(i) && db.pipelines[i].status.Queued?
    ensures var rows := FailDependents(db.pipelines);
            && FitsWorker(rows[i], db.runners, w, supportsSpec) && AllNeedsMet(rows, rows[i])
            && (forall j | 0 <= j < |rows| && FitsWorker(rows[j], db.runners, w, supportsSpec)
                           && AllNeedsMet(rows, rows[j]) ::
                  || rows[i].createdAt < rows[j].createdAt
                  || (rows[i].createdAt == rows[j].createdAt && rows[i].uuid <= rows[j].uuid))
    ensures w in db.runners ==> !db.runners[w].draining
  {
    var rows := FailDependents(db.pipelines);
    if request.Some? {
      var previous := Previous(db.pipelines, w, request.value, |db.pipelines|);
      assert previous.Some? ==> Claim(db, w, request, supportsSpec).0 == db;
    }
    assert rows[i] == FailIfDead(db.pipelines, db.pipelines[i]);
  }

  /** And a claim that is no replay, of a worker neither busy nor draining, assigns something if anything fits. */
  lemma ClaimAssignsWhenSomethingFits(db: Db, w: nat, request: Option<nat>, supportsSpec: bool, i: nat)
    requires i < |db.pipelines| && (w in db.runners ==> !db.runners[w].draining)
    requires request.Some? ==> !Busy(db, w) && forall j | 0 <= j < |db.pipelines| ::
               db.pipelines[j].worker != Some(w) || db.pipelines[j].request != request
    requires var rows := FailDependents(db.pipelines);
             FitsWorker(rows[i], db.runners, w, supportsSpec) && AllNeedsMet(rows, rows[i])
    ensures var (after, r) := Claim(db, w, request, supportsSpec);
            r.Some? && r.value < |after.pipelines| && Starts(db.pipelines[r.value], after.pipelines[r.value])
            && Holds(after, r.value, w)
  {
    var rows := FailDependents(db.pipelines);
    assert Claimable(rows, db.runners, w, supportsSpec, rows[i]);
    var p := Candidate(rows, db.runners, w, supportsSpec, |rows|).value;
    assert rows[p] == FailIfDead(db.pipelines, db.pipelines[p]);
  }

  /** A claim of a draining worker, or one under a request by a worker that is busy, changes nothing at all. */
  lemma RefusedClaimChangesNothing(db: Db, w: nat, request: Option<nat>, supportsSpec: bool)
    requires IsDraining(db, w) || (request.Some? && Busy(db, w))
    ensures var (after, r) := Claim(db, w, request, supportsSpec);
            && after == db
            && (r.Some? ==> request.Some? && Active(db, r.value, w) && db.pipelines[r.value].request == request)
  {
  }

  /** A queued row that any worker can take. */
  predicate FreeRow(row: Pipeline) {
    row.status.Queued? && !row.cancelRequested && row.spec.None? && row.os.None? && row.needs == []
  }

  lemma FreeRowStays(db: Db, s: Step, i: nat)
    requires i < |db.pipelines| && FreeRow(db.pipelines[i])
    ensures i < |Apply(db, s).pipelines|
    ensures Apply(db, s).pipelines[i].status.Queued? ==> Apply(db, s).pipelines[i] == db.pipelines[i]
  {
    StepKeepsRows(db, s);
    assert RowStep(db.pipelines[i], Apply(db, s).pipelines[i], db.now);
  }

  lemma EarlierIsTakenFirst(db: Db, s: Step, i: nat, j: nat)
    requires i < |db.pipelines| && j < |db.pipelines| && FreeRow(db.pipelines[i])
    requires db.pipelines[i].createdAt < db.pipelines[j].createdAt
    requires db.pipelines[j].worker.None?
    ensures Apply(db, s).pipelines[j].worker.None?
  {
    if Apply(db, s).pipelines[j].worker.Some? {
      StartsByClaim(db, s, j);
      ClaimPicksOldestFit(db, s.worker, s.request, s.supportsSpec, j);
      assert FailDependents(db.pipelines)[i] == FailIfDead(db.pipelines, db.pipelines[i]);
    }
  }

  /** First come, first served: as long as an earlier free row is queued, a later row is not started, in any run. */
  lemma {:induction false} EarlierStartsFirst(db: Db, steps: seq<Step>, i: nat, j: nat)
    requires i < |db.pipelines| && j < |db.pipelines| && FreeRow(db.pipelines[i])
    requires db.pipelines[i].createdAt < db.pipelines[j].createdAt && db.pipelines[j].worker.None?
    ensures i < |Run(db, steps).pipelines| && j < |Run(db, steps).pipelines|
    ensures Run(db, steps).pipelines[i].status.Queued? ==> Run(db, steps).pipelines[j].worker.None?
    decreases steps
  {
    if steps != [] {
      var next := Apply(db, steps[0]);
      StepKeepsRows(db, steps[0]);
      RunKeepsRows(next, steps[1..]);
      FreeRowStays(db, steps[0], i);
      EarlierIsTakenFirst(db, steps[0], i, j);
      if next.pipelines[i].status.Queued? {
        RowStepIsLater(db.pipelines[j], next.pipelines[j], db.now);
        EarlierStartsFirst(next, steps[1..], i, j);
      } else {
        assert Later(next.pipelines[i], Run(next, steps[1..]).pipelines[i]);
      }
    }
  }

  // ---------- cancellation ----------

  /** A pipeline with a cancel request that ends, ends as canceled. */
  lemma {:induction false} CancelRequestPrevails(db: Db, steps: seq<Step>, p: nat)
    requires Sound(db) && p < |db.pipelines| && db.pipelines[p].cancelRequested
    ensures p < |Run(db, steps).pipelines|
    ensures Run(db, steps).pipelines[p].status.Canceled? || Run(db, steps).pipelines[p].status.Running?
    ensures Run(db, steps).pipelines[p].cancelRequested
  {
    RunKeepsRows(db, steps);
    RunKeepsSound(db, steps);
    assert Later(db.pipelines[p], Run(db, steps).pipelines[p]);
    assert RowOk(Run(db, steps).pipelines[p], Run(db, steps).now);
  }

  /** Whatever happens after a cancel, a pipeline that had not ended is canceled or still stopping. */
  lemma CancelTakesEffect(db: Db, p: nat, later: seq<Step>)
    requires Sound(db) && p < |db.pipelines| && !db.pipelines[p].status.Terminal()
    ensures var end := Run(Cancel(db, p), later);
            && p < |end.pipelines| && end.pipelines[p].cancelRequested
            && (end.pipelines[p].status.Canceled?
                || (end.pipelines[p].status.Running? && db.pipelines[p].status.Running?))
    ensures forall w :: !Active(Run(Cancel(db, p), later), p, w)
  {
    StepKeepsSound(db, CancelStep(p));
    CancelRequestPrevails(Cancel(db, p), later, p);
    RunKeepsRows(Cancel(db, p), later);
    assert Later(Cancel(db, p).pipelines[p], Run(Cancel(db, p), later).pipelines[p]);
  }

  // ---------- leases that are not renewed ----------

  /** A running pipeline is neither live nor expired at one instant only, that at which its lease ends. */
  lemma OnlyTheInstantIsNeither(db: Db, p: nat)
    requires Sound(db) && p < |db.pipelines| && db.pipelines[p].status.Running?
    ensures !Live(db.pipelines[p], db.now) && !Expired(db.pipelines[p], db.now)
       <==> db.pipelines[p].lease == Some(db.now)
  {
    assert RowOk(db.pipelines[p], db.now);
  }

  /** Somewhere in the run the reaper comes later than time t. */
  predicate ReapsAfter(db: Db, steps: seq<Step>, t: nat)
    decreases steps
  {
    steps != [] && ((steps[0].ReapStep? && db.now > t) || ReapsAfter(Apply(db, steps[0]), steps[1..], t))
  }

  lemma StepKeepsUnrenewed(db: Db, s: Step, p: nat)
    requires p < |db.pipelines| && db.pipelines[p].status.Running? && db.pipelines[p].lease.Some?
    requires db.pipelines[p].lease.value <= db.now
    ensures p < |Apply(db, s).pipelines|
    ensures var (a, b) := (db.pipelines[p], Apply(db, s).pipelines[p]);
            if s.ReapStep? && db.now > a.lease.value then b.status.Terminal()
            else b.status.Running? && b.lease == a.lease
  {
    if !s.FinishStep? && !s.ReapStep? {
      OnlyClosingEnds(db, s, p);
      StepKeepsRows(db, s);
      assert RowStep(db.pipelines[p], Apply(db, s).pipelines[p], db.now);
    }
  }

  /** Whatever else happens, a pipeline whose lease is not live ends exactly when a reap comes after the lease. */
  lemma {:induction false} UnrenewedEndsAtReap(db: Db, steps: seq<Step>, p: nat)
    requires p < |db.pipelines| && db.pipelines[p].status.Running? && db.pipelines[p].lease.Some?
    requires db.pipelines[p].lease.value <= db.now
    ensures p < |Run(db, steps).pipelines|
    ensures var (a, b) := (db.pipelines[p], Run(db, steps).pipelines[p]);
            if ReapsAfter(db, steps, a.lease.value) then b.status.Terminal()
            else b.status.Running? && b.lease == a.lease
    decreases steps
  {
    if steps != [] {
      var next := Apply(db, steps[0]);
      StepKeepsUnrenewed(db, steps[0], p);
      StepKeepsRows(db, steps[0]);
      if next.pipelines[p].status.Running? {
        UnrenewedEndsAtReap(next, steps[1..], p);
      } else {
        RunKeepsRows(next, steps[1..]);
        assert Later(next.pipelines[p], Run(next, steps[1..]).pipelines[p]);
      }
    }
  }

  /** At that instant a reap leaves the pipeline alone and its holder can do nothing; a second later a reap ends it. */
  lemma InstantPasses(db: Db, p: nat, w: nat, report: Step, seconds: nat)
    requires Sound(db) && p < |db.pipelines| && db.pipelines[p].status.Running?
    requires db.pipelines[p].lease == Some(db.now) && ReportOn(db, report, p, w)
    ensures Reap(db).pipelines[p] == db.pipelines[p] && Apply(db, report) == db
    ensures Reap(Apply(db, Tick(seconds))).pipelines[p].status.Terminal() <==> seconds > 0
  {
    OldHolderHasNoEffect(db, [], p, w, report);
    assert Run(db, []) == db;
    UnrenewedEndsAtReap(db, [Tick(seconds), ReapStep], p);
    assert [Tick(seconds), ReapStep][1..] == [ReapStep] && [ReapStep][1..] == [];
  }

  // ---------- closing jobs ----------

  /** What becomes of an open job when its pipeline ends. */
  predicate ClosedAs(before: Job, after: Job, final: PipelineStatus) {
    && after.pipeline == before.pipeline && after.name == before.name && after.position == before.position
    && (final.Canceled? && before.status.Open() ==> after.status.JobCanceled?)
    && (!final.Canceled? && before.status.JobRunning? ==> after.status.JobFailed?)
    && (!final.Canceled? && before.status.JobQueued? ==> after.status.JobSkipped?)
    && (!before.status.Open() ==> after == before)
  }

  lemma StepKeepsEndedJob(db: Db, s: Step, k: nat)
    requires RowsOk(db) && k < |db.jobs|
    requires db.jobs[k].pipeline < |db.pipelines| && db.pipelines[db.jobs[k].pipeline].status.Terminal()
    ensures k < |Apply(db, s).jobs| && Apply(db, s).jobs[k] == db.jobs[k]
  {
    assert JobFits(db.pipelines, db.jobs[k]);
  }

  /** The record of an ended pipeline and of its jobs never changes again. */
  lemma {:induction false} EndedRecordIsFinal(db: Db, steps: seq<Step>, k: nat)
    requires Sound(db) && k < |db.jobs|
    requires db.jobs[k].pipeline < |db.pipelines| && db.pipelines[db.jobs[k].pipeline].status.Terminal()
    ensures k < |Run(db, steps).jobs| && Run(db, steps).jobs[k] == db.jobs[k]
    decreases steps
  {
    if steps != [] {
      var p, next := db.jobs[k].pipeline, Apply(db, steps[0]);
      StepKeepsEndedJob(db, steps[0], k);
      StepKeepsSound(db, steps[0]);
      StepKeepsRows(db, steps[0]);
      assert RowStep(db.pipelines[p], next.pipelines[p], db.now);
      assert RowOk(db.pipelines[p], db.now);
      EndedRecordIsFinal(next, steps[1..], k);
    }
  }

  lemma EndedStays(db: Db, p: nat, k: nat, later: seq<Step>)
    requires Sound(db) && p < |db.pipelines| && db.pipelines[p].status.Terminal()
    requires k < |db.jobs| && db.jobs[k].pipeline == p
    ensures p < |Run(db, later).pipelines| && Run(db, later).pipelines[p] == db.pipelines[p]
    ensures k < |Run(db, later).jobs| && Run(db, later).jobs[k] == db.jobs[k]
  {
    EndedRecordIsFinal(db, later, k);
    RunKeepsRows(db, later);
    assert Later(db.pipelines[p], Run(db, later).pipelines[p]);
  }

  /** A report by the holder settles the pipeline and its jobs for all later times. */
  lemma FinishClosesJobs(db: Db, p: nat, w: nat, success: bool, k: nat, later: seq<Step>)
    requires Sound(db) && Holds(db, p, w) && k < |db.jobs| && db.jobs[k].pipeline == p
    ensures var end := Run(Finish(db, p, w, success), later);
            && p < |end.pipelines| && k < |end.jobs| && end.pipelines[p].lease.None?
            && end.pipelines[p].status
               == (if db.pipelines[p].cancelRequested then Canceled else if success then Succeeded else Failed)
            && ClosedAs(db.jobs[k], end.jobs[k], end.pipelines[p].status)
  {
    StepKeepsSound(db, FinishStep(p, w, success));
    EndedStays(Finish(db, p, w, success), p, k, later);
  }

  /** So does the reaper, for exactly the pipelines whose lease has passed. */
  lemma ReapEndsExpired(db: Db, p: nat, k: nat, later: seq<Step>)
    requires Sound(db) && p < |db.pipelines| && Expired(db.pipelines[p], db.now)
    requires k < |db.jobs| && db.jobs[k].pipeline == p
    ensures var end := Run(Reap(db), later);
            && p < |end.pipelines| && k < |end.jobs| && end.pipelines[p].lease.None?
            && end.pipelines[p].status == (if db.pipelines[p].cancelRequested then Canceled else Failed)
            && ClosedAs(db.jobs[k], end.jobs[k], end.pipelines[p].status)
  {
    StepKeepsSound(db, ReapStep);
    EndedStays(Reap(db), p, k, later);
  }

  // ---------- draining ----------

  predicate IsDraining(db: Db, w: nat) {
    w in db.runners && db.runners[w].draining
  }

  /** Until it is switched back or removed, a draining runner gets nothing new, not even after restarts. */
  lemma {:induction false} DrainingRunnerGetsNothing(db: Db, steps: seq<Step>, w: nat, p: nat)
    requires IsDraining(db, w) && DrainStep(w, false) !in steps && RemoveStep(w) !in steps
    requires p < |Run(db, steps).pipelines| && Run(db, steps).pipelines[p].worker == Some(w)
    ensures IsDraining(Run(db, steps), w)
    ensures p < |db.pipelines| && db.pipelines[p].worker == Some(w)
    decreases steps
  {
    if steps != [] {
      var next := Apply(db, steps[0]);
      assert IsDraining(next, w);
      DrainingRunnerGetsNothing(next, steps[1..], w, p);
      StepKeepsRows(db, steps[0]);
      if p < |db.pipelines| && db.pipelines[p].worker != next.pipelines[p].worker {
        StartsByClaim(db, steps[0], p);
      }
    }
  }
}
