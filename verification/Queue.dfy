/**
 * The pipeline queue (src/ci/db.rs): tables, and what each transaction does to them.
 *
 * A pipeline or a job is addressed by the position of its row; rows are never deleted. The uuid column
 * keeps its role of breaking ties. Each transaction happens at one instant, db.now.
 */
module Queue {
  import opened Wrappers
  import opened Config

  const LEASE_SECONDS: nat := 30
  const PRESENCE_SECONDS: nat := 15

  datatype PipelineStatus = Queued | Running | Succeeded | Failed | Canceled {
    predicate Terminal() {
      Succeeded? || Failed? || Canceled?
    }
  }

  datatype JobStatus = JobQueued | JobRunning | JobSucceeded | JobFailed | JobCanceled | JobSkipped {
    predicate Open() {
      JobQueued? || JobRunning?
    }
  }

  /** What a dependency is looked up by: only pipelines of the same origin can satisfy it. */
  datatype Origin = Origin(repository: string, branch: Option<string>, revision: string, group: Option<nat>)

  datatype Pipeline = Pipeline(
    origin: Origin, name: Option<string>, needs: seq<string>, os: Option<string>, spec: Option<PipelineConfig>,
    pushed: bool, createdAt: nat, uuid: nat,
    status: PipelineStatus, worker: Option<nat>, request: Option<nat>, lease: Option<nat>, cancelRequested: bool)

  datatype Job = Job(pipeline: nat, position: nat, name: string, stage: string, status: JobStatus)

  datatype Runner = Runner(os: string, draining: bool, stopped: bool, lastSeen: nat)

  datatype LogLine = LogLine(pipeline: nat, job: Option<nat>, content: string)

  datatype Db = Db(pipelines: seq<Pipeline>, jobs: seq<Job>, runners: map<nat, Runner>, logs: seq<LogLine>, now: nat)

  /** What a submission fixes for good; a push carries its previous revision, a manual run does not. */
  datatype Submission = Submission(
    origin: Origin, name: Option<string>, needs: seq<string>, os: Option<string>, spec: Option<PipelineConfig>,
    pushed: bool, uuid: nat)

  // ---------- who holds what ----------

  predicate Live(row: Pipeline, now: nat) {
    row.status.Running? && row.lease.Some? && row.lease.value > now
  }

  /** Worker w runs row p under an unexpired lease. */
  predicate Holds(db: Db, p: nat, w: nat) {
    p < |db.pipelines| && db.pipelines[p].worker == Some(w) && Live(db.pipelines[p], db.now)
  }

  predicate Active(db: Db, p: nat, w: nat) {
    Holds(db, p, w) && !db.pipelines[p].cancelRequested
  }

  predicate Busy(db: Db, w: nat) {
    exists p :: 0 <= p < |db.pipelines| && Holds(db, p, w)
  }

  // ---------- dependencies ----------

  predicate Matches(row: Pipeline, origin: Origin, name: string) {
    row.origin == origin && row.name == Some(name)
  }

  predicate Newer(a: Pipeline, b: Pipeline) {
    a.createdAt > b.createdAt || (a.createdAt == b.createdAt && a.uuid > b.uuid)
  }

  /** The most recent pipeline of that name and origin. */
  function Latest(rows: seq<Pipeline>, origin: Origin, name: string): (r: Option<nat>)
    ensures r.None? ==> forall i | 0 <= i < |rows| :: !Matches(rows[i], origin, name)
    ensures r.Some? ==> r.value < |rows| && Matches(rows[r.value], origin, name)
    ensures r.Some? ==> forall i | 0 <= i < |rows| && Matches(rows[i], origin, name) ::
              || rows[i].createdAt < rows[r.value].createdAt
              || (rows[i].createdAt == rows[r.value].createdAt && rows[i].uuid <= rows[r.value].uuid)
  {
    if rows == [] then None
    else
      var last := |rows| - 1;
      var before := Latest(rows[..last], origin, name);
      if Matches(rows[last], origin, name) && (before.None? || Newer(rows[last], rows[before.value])) then Some(last)
      else before
  }

  /** The latest pipeline of that name failed or was canceled. */
  predicate NeedDead(rows: seq<Pipeline>, origin: Origin, name: string) {
    var latest := Latest(rows, origin, name);
    latest.Some? && (rows[latest.value].status.Failed? || rows[latest.value].status.Canceled?)
  }

  /** No pipeline of that name is present, or the latest one succeeded. */
  predicate NeedMet(rows: seq<Pipeline>, origin: Origin, name: string) {
    var latest := Latest(rows, origin, name);
    latest.Some? ==> rows[latest.value].status.Succeeded?
  }

  predicate SomeNeedDead(rows: seq<Pipeline>, row: Pipeline) {
    exists k :: 0 <= k < |row.needs| && NeedDead(rows, row.origin, row.needs[k])
  }

  predicate AllNeedsMet(rows: seq<Pipeline>, row: Pipeline) {
    forall k | 0 <= k < |row.needs| :: NeedMet(rows, row.origin, row.needs[k])
  }

  function FailIfDead(rows: seq<Pipeline>, row: Pipeline): Pipeline {
    if row.status.Queued? && SomeNeedDead(rows, row) then row.(status := Failed) else row
  }

  /** One statement: every row is judged by the statuses before the statement. */
  function FailDependents(rows: seq<Pipeline>): (r: seq<Pipeline>)
    ensures |r| == |rows| && forall i | 0 <= i < |rows| :: r[i] == FailIfDead(rows, rows[i])
  {
    seq(|rows|, i requires 0 <= i < |rows| => FailIfDead(rows, rows[i]))
  }

  // ---------- claims ----------

  predicate RunsOn(runners: map<nat, Runner>, w: nat, os: Option<string>) {
    os.Some? ==> w in runners && !runners[w].stopped && runners[w].os == os.value
  }

  predicate Claimable(rows: seq<Pipeline>, runners: map<nat, Runner>, w: nat, supportsSpec: bool, row: Pipeline) {
    && row.status.Queued? && !row.cancelRequested && (row.spec.None? || supportsSpec)
    && RunsOn(runners, w, row.os) && AllNeedsMet(rows, row)
  }

  /** The oldest claimable pipeline among the first n rows. */
  function Candidate(rows: seq<Pipeline>, runners: map<nat, Runner>, w: nat, supportsSpec: bool, n: nat)
    : (r: Option<nat>)
    requires n <= |rows|
    ensures r.None? ==> forall i | 0 <= i < n :: !Claimable(rows, runners, w, supportsSpec, rows[i])
    ensures r.Some? ==> r.value < n && Claimable(rows, runners, w, supportsSpec, rows[r.value])
    ensures r.Some? ==> forall i | 0 <= i < n && Claimable(rows, runners, w, supportsSpec, rows[i]) ::
              || rows[r.value].createdAt < rows[i].createdAt
              || (rows[r.value].createdAt == rows[i].createdAt && rows[r.value].uuid <= rows[i].uuid)
  {
    if n == 0 then None
    else
      var before := Candidate(rows, runners, w, supportsSpec, n - 1);
      if Claimable(rows, runners, w, supportsSpec, rows[n-1]) && (before.None? || Newer(rows[before.value], rows[n-1]))
      then Some(n - 1) else before
  }

  /** The row already assigned for this request of this worker, if any, among the first n rows. */
  function Previous(rows: seq<Pipeline>, w: nat, request: nat, n: nat): (r: Option<nat>)
    requires n <= |rows|
    ensures r.Some? ==> r.value < n && rows[r.value].worker == Some(w) && rows[r.value].request == Some(request)
    ensures r.None? ==> forall i | 0 <= i < n :: !(rows[i].worker == Some(w) && rows[i].request == Some(request))
  {
    if n == 0 then None
    else if rows[n-1].worker == Some(w) && rows[n-1].request == Some(request) then Some(n - 1)
    else Previous(rows, w, request, n - 1)
  }

  function Assigned(row: Pipeline, w: nat, request: Option<nat>, now: nat): Pipeline {
    row.(status := Running, worker := Some(w), request := request, lease := Some(now + LEASE_SECONDS))
  }

  /** The claim gets as far as the two updates: it is no replay, and the worker is neither busy nor draining. */
  predicate Reaches(db: Db, w: nat, request: Option<nat>) {
    && (request.Some? ==> Previous(db.pipelines, w, request.value, |db.pipelines|).None? && !Busy(db, w))
    && (w in db.runners ==> !db.runners[w].draining)
  }

  function Claim(db: Db, w: nat, request: Option<nat>, supportsSpec: bool): (Db, Option<nat>) {
    var previous := if request.Some? then Previous(db.pipelines, w, request.value, |db.pipelines|) else None;
    if previous.Some? then
      (db, if Active(db, previous.value, w) && (db.pipelines[previous.value].spec.None? || supportsSpec)
           then previous else None)
    else if !Reaches(db, w, request) then (db, None)
    else
      var rows := FailDependents(db.pipelines);
      var next := Candidate(rows, db.runners, w, supportsSpec, |rows|);
      if next.None? then (db.(pipelines := rows), None)
      else (db.(pipelines := rows[next.value := Assigned(rows[next.value], w, request, db.now)]), next)
  }

  // ---------- the other transactions ----------

  function SubmittedRow(s: Submission, now: nat): Pipeline {
    Pipeline(s.origin, s.name, s.needs, s.os, s.spec, s.pushed, now, s.uuid, Queued, None, None, None, false)
  }

  /** The pipeline of that name was already pushed at the same branch and revision. */
  predicate SamePush(row: Pipeline, s: Submission) {
    && row.pushed && s.pushed && s.name.Some? && row.name == s.name && s.origin.branch.Some?
    && row.origin.repository == s.origin.repository && row.origin.branch == s.origin.branch
    && row.origin.revision == s.origin.revision
  }

  /** The primary key, one pipeline of a name in a run group, and one push of a name at a revision. */
  predicate Collides(row: Pipeline, s: Submission) {
    || row.uuid == s.uuid
    || (s.origin.group.Some? && s.name.Some? && row.origin.group == s.origin.group && row.name == s.name)
    || SamePush(row, s)
  }

  predicate Rejects(db: Db, s: Submission) {
    exists i :: 0 <= i < |db.pipelines| && Collides(db.pipelines[i], s)
  }

  function Submit(db: Db, s: Submission): Db {
    if Rejects(db, s) then db
    else db.(pipelines := db.pipelines + [SubmittedRow(s, db.now)])
  }

  function Heartbeat(db: Db, p: nat, w: nat): Db {
    if Active(db, p, w)
    then db.(pipelines := db.pipelines[p := db.pipelines[p].(lease := Some(db.now + LEASE_SECONDS))])
    else db
  }

  function CanceledRow(row: Pipeline): Pipeline {
    if row.status.Queued? then row.(status := Canceled, cancelRequested := true)
    else if row.status.Running? then row.(cancelRequested := true)
    else row
  }

  function Cancel(db: Db, p: nat): Db {
    if p < |db.pipelines| then db.(pipelines := db.pipelines[p := CanceledRow(db.pipelines[p])]) else db
  }

  /** How a running pipeline ends. */
  function Closed(row: Pipeline, outcome: PipelineStatus): Pipeline {
    row.(status := if row.cancelRequested then Canceled else outcome, lease := None)
  }

  function ClosedJob(job: Job, final: PipelineStatus): Job {
    if job.status.Open() then
      job.(status := if final.Canceled? then JobCanceled else if job.status.JobRunning? then JobFailed else JobSkipped)
    else job
  }

  function FinishedJobs(jobs: seq<Job>, p: nat, final: PipelineStatus): (r: seq<Job>)
    ensures |r| == |jobs|
    ensures forall k | 0 <= k < |jobs| :: r[k] == if jobs[k].pipeline == p then ClosedJob(jobs[k], final) else jobs[k]
  {
    seq(|jobs|, k requires 0 <= k < |jobs| => if jobs[k].pipeline == p then ClosedJob(jobs[k], final) else jobs[k])
  }

  function Finish(db: Db, p: nat, w: nat, success: bool): Db {
    if Holds(db, p, w) then
      var row := Closed(db.pipelines[p], if success then Succeeded else Failed);
      db.(pipelines := db.pipelines[p := row], jobs := FinishedJobs(db.jobs, p, row.status))
    else db
  }

  predicate Expired(row: Pipeline, now: nat) {
    row.status.Running? && row.lease.Some? && row.lease.value < now
  }

  function Reaped(row: Pipeline, now: nat): Pipeline {
    if Expired(row, now) then Closed(row, Failed) else row
  }

  function ReapedJob(rows: seq<Pipeline>, job: Job, now: nat): Job {
    if job.pipeline < |rows| && Expired(rows[job.pipeline], now)
    then ClosedJob(job, Reaped(rows[job.pipeline], now).status) else job
  }

  /** Crashed workers' pipelines are failed, never run again. */
  function Reap(db: Db): Db {
    db.(pipelines := seq(|db.pipelines|, i requires 0 <= i < |db.pipelines| => Reaped(db.pipelines[i], db.now)),
        jobs := seq(|db.jobs|, k requires 0 <= k < |db.jobs| => ReapedJob(db.pipelines, db.jobs[k], db.now)))
  }

  function NewJobs(p: nat, c: PipelineConfig): (r: seq<Job>)
    ensures |r| == |c.jobs|
    ensures forall k | 0 <= k < |r| :: r[k] == Job(p, k, c.jobs[k].name, c.jobs[k].stage, JobQueued)
  {
    seq(|c.jobs|, k requires 0 <= k < |c.jobs| => Job(p, k, c.jobs[k].name, c.jobs[k].stage, JobQueued))
  }

  /** Positions and names are unique within a pipeline. */
  predicate JobsCollide(jobs: seq<Job>, p: nat, c: PipelineConfig) {
    || (exists k ::
          && 0 <= k < |jobs| && jobs[k].pipeline == p
          && (jobs[k].position < |c.jobs| || jobs[k].name in Names(c.jobs)))
    || (exists a, b :: 0 <= a < b < |c.jobs| && c.jobs[a].name == c.jobs[b].name)
  }

  /** A stored specification takes the place of what the worker sent. */
  function UsedConfig(row: Pipeline, sent: PipelineConfig): PipelineConfig {
    if row.spec.Some? then row.spec.value else sent
  }

  /** The ids of the new jobs are the positions from |db.jobs|; None when refused. */
  function CreateJobs(db: Db, p: nat, w: nat, sent: PipelineConfig): (Db, Option<seq<Job>>) {
    if !Active(db, p, w) then (db, None)
    else
      var c := UsedConfig(db.pipelines[p], sent);
      if JobsCollide(db.jobs, p, c) then (db, None)
      else (db.(jobs := db.jobs + NewJobs(p, c)), Some(NewJobs(p, c)))
  }

  predicate JobActive(db: Db, j: nat, w: nat) {
    j < |db.jobs| && Active(db, db.jobs[j].pipeline, w)
  }

  function SetJobStatus(db: Db, j: nat, w: nat, status: JobStatus): Db {
    if JobActive(db, j, w) then db.(jobs := db.jobs[j := db.jobs[j].(status := status)]) else db
  }

  function AppendLog(db: Db, w: nat, line: LogLine): Db {
    if Active(db, line.pipeline, w)
       && (line.job.Some? ==> line.job.value < |db.jobs| && db.jobs[line.job.value].pipeline == line.pipeline)
    then db.(logs := db.logs + [line]) else db
  }

  function Register(db: Db, w: nat, os: string): Db {
    db.(runners := db.runners[w := Runner(os, w in db.runners && db.runners[w].draining, false, db.now)])
  }

  function Touch(db: Db, w: nat): Db {
    if w in db.runners
    then db.(runners := db.runners[w := db.runners[w].(lastSeen := db.now, stopped := false)]) else db
  }

  function Stop(db: Db, w: nat): Db {
    if w in db.runners then db.(runners := db.runners[w := db.runners[w].(lastSeen := db.now, stopped := true)]) else db
  }

  function SetDraining(db: Db, w: nat, draining: bool): Db {
    if w in db.runners then db.(runners := db.runners[w := db.runners[w].(draining := draining)]) else db
  }

  datatype Removal = Removed | NotFound | Online | RunnerBusy

  function RemovalOf(db: Db, w: nat): Removal {
    if w !in db.runners then NotFound
    else if exists p :: 0 <= p < |db.pipelines| && db.pipelines[p].worker == Some(w) && db.pipelines[p].status.Running?
    then RunnerBusy
    else if !db.runners[w].stopped && db.now <= db.runners[w].lastSeen + PRESENCE_SECONDS then Online
    else Removed
  }

  function Remove(db: Db, w: nat): Db {
    if RemovalOf(db, w).Removed? then db.(runners := db.runners - {w}) else db
  }

  // ---------- the coordinator ----------

  class Coordinator {
    var pipelines: seq<Pipeline>
    var jobs: seq<Job>
    var runners: map<nat, Runner>
    var logs: seq<LogLine>
    var now: nat

    ghost function State(): Db
      reads this
    {
      Db(pipelines, jobs, runners, logs, now)
    }

    constructor ()
      ensures State() == Db([], [], map[], [], 0)
    {
      pipelines, jobs, runners, logs, now := [], [], map[], [], 0;
    }

    method LatestRun(origin: Origin, name: string) returns (r: Option<nat>)
      ensures r == Latest(pipelines, origin, name)
    {
      r := None;
      for i := 0 to |pipelines|
        invariant r == Latest(pipelines[..i], origin, name)
      {
        assert pipelines[..i+1][..i] == pipelines[..i];
        if Matches(pipelines[i], origin, name) && (r.None? || Newer(pipelines[i], pipelines[r.value])) {
          r := Some(i);
        }
      }
      assert pipelines[..|pipelines|] == pipelines;
    }

    method HasDeadNeed(row: Pipeline) returns (dead: bool)
      ensures dead <==> SomeNeedDead(pipelines, row)
    {
      for k := 0 to |row.needs|
        invariant forall m | 0 <= m < k :: !NeedDead(pipelines, row.origin, row.needs[m])
      {
        var latest := LatestRun(row.origin, row.needs[k]);
        if latest.Some? && (pipelines[latest.value].status.Failed? || pipelines[latest.value].status.Canceled?) {
          return true;
        }
      }
      return false;
    }

    method HasAllNeeds(row: Pipeline) returns (met: bool)
      ensures met <==> AllNeedsMet(pipelines, row)
    {
      for k := 0 to |row.needs|
        invariant forall m | 0 <= m < k :: NeedMet(pipelines, row.origin, row.needs[m])
      {
        var latest := LatestRun(row.origin, row.needs[k]);
        if latest.Some? && !pipelines[latest.value].status.Succeeded? {
          return false;
        }
      }
      return true;
    }

    method FailAllDependents()
      modifies this`pipelines
      ensures pipelines == FailDependents(old(pipelines))
    {
      var rows: seq<Pipeline> := [];
      for i := 0 to |pipelines|
        invariant pipelines == old(pipelines)
        invariant |rows| == i && forall k | 0 <= k < i :: rows[k] == FailIfDead(pipelines, pipelines[k])
      {
        var dead := HasDeadNeed(pipelines[i]);
        rows := rows + [if pipelines[i].status.Queued? && dead then pipelines[i].(status := Failed) else pipelines[i]];
      }
      pipelines := rows;
    }

    method OldestClaimable(w: nat, supportsSpec: bool) returns (r: Option<nat>)
      ensures r == Candidate(pipelines, runners, w, supportsSpec, |pipelines|)
    {
      r := None;
      for i := 0 to |pipelines|
        invariant r == Candidate(pipelines, runners, w, supportsSpec, i)
      {
        var row := pipelines[i];
        var met := HasAllNeeds(row);
        if row.status.Queued? && !row.cancelRequested && (row.spec.None? || supportsSpec)
           && RunsOn(runners, w, row.os) && met && (r.None? || Newer(pipelines[r.value], row)) {
          r := Some(i);
        }
      }
    }

    method FindPrevious(w: nat, request: nat) returns (r: Option<nat>)
      ensures r == Previous(pipelines, w, request, |pipelines|)
    {
      r := None;
      for i := 0 to |pipelines|
        invariant r == Previous(pipelines, w, request, i)
      {
        if pipelines[i].worker == Some(w) && pipelines[i].request == Some(request) {
          r := Some(i);
        }
      }
    }

    method IsBusy(w: nat) returns (busy: bool)
      ensures busy <==> Busy(State(), w)
    {
      for i := 0 to |pipelines|
        invariant forall k | 0 <= k < i :: !Holds(State(), k, w)
      {
        if pipelines[i].worker == Some(w) && Live(pipelines[i], now) {
          assert Holds(State(), i, w);
          return true;
        }
      }
      return false;
    }

    method ClaimInner(w: nat, request: Option<nat>, supportsSpec: bool) returns (r: Option<nat>)
      modifies this`pipelines
      ensures (State(), r) == Claim(old(State()), w, request, supportsSpec)
    {
      var draining := w in runners && runners[w].draining;
      if request.Some? {
        var previous := FindPrevious(w, request.value);
        if previous.Some? {
          var row := pipelines[previous.value];
          var active := Live(row, now) && !row.cancelRequested;
          return if active && (row.spec.None? || supportsSpec) then previous else None;
        }
        var busy := IsBusy(w);
        if busy {
          return None;
        }
      }
      if draining {
        return None;
      }
      FailAllDependents();
      r := OldestClaimable(w, supportsSpec);
      if r.Some? {
        pipelines := pipelines[r.value := Assigned(pipelines[r.value], w, request, now)];
      }
    }

    method SubmitPipeline(s: Submission) returns (row: Option<nat>)
      modifies this`pipelines
      ensures State() == Submit(old(State()), s)
      ensures row == if Rejects(old(State()), s) then None else Some(|old(pipelines)|)
    {
      for i := 0 to |pipelines|
        invariant pipelines == old(pipelines) && forall k | 0 <= k < i :: !Collides(pipelines[k], s)
      {
        if Collides(pipelines[i], s) {
          return None;
        }
      }
      row := Some(|pipelines|);
      pipelines := pipelines + [SubmittedRow(s, now)];
    }

    method ExtendLease(p: nat, w: nat) returns (active: bool)
      modifies this`pipelines
      ensures State() == Heartbeat(old(State()), p, w)
      ensures active == Active(old(State()), p, w)
    {
      active := p < |pipelines| && pipelines[p].worker == Some(w) && Live(pipelines[p], now)
                && !pipelines[p].cancelRequested;
      if active {
        pipelines := pipelines[p := pipelines[p].(lease := Some(now + LEASE_SECONDS))];
      }
    }

    method RequestCancel(p: nat) returns (row: Option<Pipeline>)
      modifies this`pipelines
      ensures State() == Cancel(old(State()), p)
      ensures row == if p < |pipelines| then Some(pipelines[p]) else None
    {
      if p >= |pipelines| {
        return None;
      }
      pipelines := pipelines[p := CanceledRow(pipelines[p])];
      row := Some(pipelines[p]);
    }

    method CloseJobs(p: nat, final: PipelineStatus)
      modifies this`jobs
      ensures jobs == FinishedJobs(old(jobs), p, final)
    {
      var i := 0;
      while i < |jobs|
        invariant 0 <= i <= |jobs| == |old(jobs)|
        invariant forall k | 0 <= k < i :: jobs[k] == FinishedJobs(old(jobs), p, final)[k]
        invariant forall k | i <= k < |jobs| :: jobs[k] == old(jobs)[k]
      {
        if jobs[i].pipeline == p {
          jobs := jobs[i := ClosedJob(jobs[i], final)];
        }
        i := i + 1;
      }
    }

    method FinishPipeline(p: nat, w: nat, success: bool)
      modifies this`pipelines, this`jobs
      ensures State() == Finish(old(State()), p, w, success)
    {
      if p < |pipelines| && pipelines[p].worker == Some(w) && Live(pipelines[p], now) {
        var row := Closed(pipelines[p], if success then Succeeded else Failed);
        pipelines := pipelines[p := row];
        CloseJobs(p, row.status);
      }
    }

    method ReapExpired()
      modifies this`pipelines, this`jobs
      ensures State() == Reap(old(State()))
    {
      var open: seq<Job> := [];
      for k := 0 to |jobs|
        invariant jobs == old(jobs) && pipelines == old(pipelines) && now == old(now)
        invariant |open| == k && forall m | 0 <= m < k :: open[m] == ReapedJob(pipelines, jobs[m], now)
      {
        open := open + [ReapedJob(pipelines, jobs[k], now)];
      }
      jobs := open;
      var rows: seq<Pipeline> := [];
      for i := 0 to |pipelines|
        invariant pipelines == old(pipelines) && now == old(now) && jobs == open
        invariant |rows| == i && forall k | 0 <= k < i :: rows[k] == Reaped(pipelines[k], now)
      {
        rows := rows + [Reaped(pipelines[i], now)];
      }
      pipelines := rows;
    }

    method InsertJobs(p: nat, w: nat, sent: PipelineConfig) returns (r: Option<seq<Job>>)
      modifies this`jobs
      ensures (State(), r) == CreateJobs(old(State()), p, w, sent)
    {
      if !(p < |pipelines| && pipelines[p].worker == Some(w) && Live(pipelines[p], now)
          && !pipelines[p].cancelRequested) {
        return None;
      }
      var c := UsedConfig(pipelines[p], sent);
      if JobsCollide(jobs, p, c) {
        return None;
      }
      var rows: seq<Job> := [];
      for position := 0 to |c.jobs|
        invariant jobs == old(jobs) && |rows| == position
        invariant forall k | 0 <= k < position :: rows[k] == NewJobs(p, c)[k]
      {
        rows := rows + [Job(p, position, c.jobs[position].name, c.jobs[position].stage, JobQueued)];
      }
      assert rows == NewJobs(p, c);
      jobs := jobs + rows;
      r := Some(rows);
    }

    method RecordJobStatus(j: nat, w: nat, status: JobStatus) returns (ok: bool)
      modifies this`jobs
      ensures State() == SetJobStatus(old(State()), j, w, status)
      ensures ok == JobActive(old(State()), j, w)
    {
      if !(j < |jobs|) {
        return false;
      }
      var p := jobs[j].pipeline;
      ok := p < |pipelines| && pipelines[p].worker == Some(w) && Live(pipelines[p], now)
          && !pipelines[p].cancelRequested;
      if ok {
        jobs := jobs[j := jobs[j].(status := status)];
      }
    }

    method WorkerLog(w: nat, line: LogLine) returns (ok: bool)
      modifies this`logs
      ensures State() == AppendLog(old(State()), w, line)
      ensures ok == (logs != old(logs))
    {
      var p := line.pipeline;
      ok := p < |pipelines| && pipelines[p].worker == Some(w) && Live(pipelines[p], now)
          && !pipelines[p].cancelRequested
            && (line.job.Some? ==> line.job.value < |jobs| && jobs[line.job.value].pipeline == p);
      if ok {
        logs := logs + [line];
        assert |logs| == |old(logs)| + 1;
      }
    }

    /** A restart keeps the maintenance switch. */
    method RegisterRunner(w: nat, os: string)
      modifies this`runners
      ensures State() == Register(old(State()), w, os)
      ensures w in runners && !runners[w].stopped && runners[w].os == os
      ensures runners[w].draining <==> w in old(runners) && old(runners)[w].draining
    {
      var draining := w in runners && runners[w].draining;
      runners := runners[w := Runner(os, draining, false, now)];
    }

    method TouchRunner(w: nat) returns (known: bool)
      modifies this`runners
      ensures State() == Touch(old(State()), w)
      ensures known == (w in old(runners))
    {
      known := w in runners;
      if known {
        runners := runners[w := runners[w].(lastSeen := now, stopped := false)];
      }
    }

    method StopRunner(w: nat)
      modifies this`runners
      ensures State() == Stop(old(State()), w)
    {
      if w in runners {
        runners := runners[w := runners[w].(lastSeen := now, stopped := true)];
      }
    }

    method SetRunnerDraining(w: nat, draining: bool) returns (known: bool)
      modifies this`runners
      ensures State() == SetDraining(old(State()), w, draining)
      ensures known == (w in old(runners))
    {
      known := w in runners;
      if known {
        runners := runners[w := runners[w].(draining := draining)];
      }
    }

    method RemoveRunner(w: nat) returns (outcome: Removal)
      modifies this`runners
      ensures State() == Remove(old(State()), w)
      ensures outcome == RemovalOf(old(State()), w)
      ensures outcome.Removed? <==>
                (w in old(runners)
                 && (forall p | 0 <= p < |pipelines| && pipelines[p].worker == Some(w) :: !pipelines[p].status.Running?)
                 && (old(runners)[w].stopped || old(runners)[w].lastSeen + PRESENCE_SECONDS < now))
      ensures outcome.Removed? ==> w !in runners
    {
      if w !in runners {
        return NotFound;
      }
      for p := 0 to |pipelines|
        invariant runners == old(runners)
        invariant forall k | 0 <= k < p :: !(pipelines[k].worker == Some(w) && pipelines[k].status.Running?)
      {
        if pipelines[p].worker == Some(w) && pipelines[p].status.Running? {
          return RunnerBusy;
        }
      }
      if !runners[w].stopped && now <= runners[w].lastSeen + PRESENCE_SECONDS {
        return Online;
      }
      runners := runners - {w};
      outcome := Removed;
    }
  }
}
