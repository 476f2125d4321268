/** Versioned definitions, frozen specifications and the run groups made from them (src/ci/settings.rs). */
module Settings {
  import opened Wrappers
  import opened Topo
  import opened Config
  import opened Text
  import opened Paths
  import opened PipelineFile
  import G = Graph
  import Queue
  import QueueRuns
  import RunGroups
  import Protocol
  import Completion

  // ---------- execution specifications ----------

  datatype ExecutionSpec = ExecutionSpec(
    schemaVersion: nat, config: PipelineConfig, workingDirectory: string, runnerOs: Option<string>)

  datatype SpecError = UnsupportedSchema | BadConfig(error: ConfigError) | BadDirectory | BadRunnerOs

  predicate SpecFieldsOk(s: ExecutionSpec) {
    && (s.workingDirectory == "." || ValidRelativePath(s.workingDirectory))
    && (s.runnerOs.Some? ==> s.runnerOs.value in ["linux", "macos", "windows"])
  }

  /** `ExecutionSpec::validate`. */
  method ValidateSpec(l: Limits, s: ExecutionSpec) returns (r: Result<ExecutionSpec, SpecError>)
    ensures r.Ok? <==> s.schemaVersion == 1 && Acceptable(l, s.config) && SpecFieldsOk(s)
    ensures r.Ok? ==> r.value == s.(config := r.value.config) && IsValidation(l, s.config, Ok(r.value.config))
  {
    if s.schemaVersion != 1 {
      return Err(UnsupportedSchema);
    }
    var config := Validate(l, s.config);
    if config.Err? {
      return Err(BadConfig(config.error));
    }
    if s.workingDirectory != "." && !ValidRelativePath(s.workingDirectory) {
      return Err(BadDirectory);
    }
    if s.runnerOs.Some? && s.runnerOs.value !in ["linux", "macos", "windows"] {
      return Err(BadRunnerOs);
    }
    return Ok(s.(config := config.value));
  }

  /** A definition as it is stored: the result of validating some file. */
  ghost predicate IsStored(l: Limits, g: DefinitionFile) {
    exists f :: FileOk(l, f) && SameButOrdered(l, f, g)
  }

  /** `PipelineFile::select` as a specification: a named pipeline, or the root when there are none. */
  function FrozenSpec(g: DefinitionFile, name: Option<string>): Option<ExecutionSpec> {
    if name.None? then if g.pipelines == [] then Some(ExecutionSpec(1, g.root, ".", None)) else None
    else if name.value in PipelineNames(g.pipelines) then
      var p := g.pipelines[IndexOf(PipelineNames(g.pipelines), name.value)];
      Some(ExecutionSpec(1, p.config, p.workingDirectory, Some(p.runnerOs)))
    else None
  }

  lemma StoredConfigIsValidated(l: Limits, g: DefinitionFile, name: Option<string>)
    requires IsStored(l, g) && FrozenSpec(g, name).Some?
    ensures Validated(l, FrozenSpec(g, name).value.config) && Acceptable(l, FrozenSpec(g, name).value.config)
    ensures SpecFieldsOk(FrozenSpec(g, name).value)
  {
    var f :| FileOk(l, f) && SameButOrdered(l, f, g);
    if name.None? {
      ValidationGivesAcceptable(l, f.root, g.root);
    } else {
      var k := IndexOf(PipelineNames(g.pipelines), name.value);
      assert PipelineOk(l, f.pipelines[k]) && SamePipeline(l, f.pipelines[k], g.pipelines[k]);
      ValidationGivesAcceptable(l, f.pipelines[k].config, g.pipelines[k].config);
    }
  }

  /** Whatever is frozen from a stored definition: any later validation accepts it and returns it unchanged. */
  lemma FrozenSpecIsFixed(l: Limits, g: DefinitionFile, name: Option<string>, v: PipelineConfig)
    requires IsStored(l, g) && FrozenSpec(g, name).Some?
    ensures var spec := FrozenSpec(g, name).value;
            && Validated(l, spec.config) && Acceptable(l, spec.config) && SpecFieldsOk(spec)
            && (IsValidation(l, spec.config, Ok(v)) ==> v == spec.config)
  {
    StoredConfigIsValidated(l, g, name);
    if IsValidation(l, FrozenSpec(g, name).value.config, Ok(v)) {
      ValidatedIsFixed(l, FrozenSpec(g, name).value.config, Ok(v));
    }
  }

  /**
   * The worker's check of the job list cannot fail: what the coordinator inserts, after its own
   * validation or from the frozen specification, lists the jobs in the worker's order.
   */
  lemma JobListHandshake(l: Limits, db: Queue.Db, p: nat, w: nat, read: PipelineConfig, v: PipelineConfig,
                         resent: Result<PipelineConfig, ConfigError>)
    requires Queue.Active(db, p, w) && Completion.NoJobs(db, p)
    requires db.pipelines[p].spec.Some? ==> Validated(l, db.pipelines[p].spec.value)
    requires IsValidation(l, Queue.UsedConfig(db.pipelines[p], read), Ok(v)) && IsValidation(l, v, resent)
    ensures resent == Ok(v)
    ensures var jobs := Queue.CreateJobs(db, p, w, resent.value).1; jobs.Some? && Protocol.SameJobList(jobs.value, v)
  {
    var c := Queue.UsedConfig(db.pipelines[p], read);
    ResentIsFixed(l, c, v, resent);
    if db.pipelines[p].spec.Some? {
      ValidatedIsFixed(l, c, Ok(v));
    }
    assert Queue.UsedConfig(db.pipelines[p], v) == v;
    NoCollision(l, db, p, v);
  }

  /** The coordinator's own validation gives back what the worker validated. */
  lemma ResentIsFixed(l: Limits, c: PipelineConfig, v: PipelineConfig, resent: Result<PipelineConfig, ConfigError>)
    requires IsValidation(l, c, Ok(v)) && IsValidation(l, v, resent)
    ensures resent == Ok(v) && Validated(l, v)
  {
    ValidationIsIdempotent(l, c, v, resent);
    ValidationGivesAcceptable(l, c, v);
  }

  lemma NoCollision(l: Limits, db: Queue.Db, p: nat, v: PipelineConfig)
    requires Completion.NoJobs(db, p) && Validated(l, v)
    ensures !Queue.JobsCollide(db.jobs, p, v)
  {
    forall a, b | 0 <= a < b < |v.jobs|
      ensures v.jobs[a].name != v.jobs[b].name
    {
      assert Names(v.jobs)[a] != Names(v.jobs)[b];
    }
  }

  // ---------- run groups ----------

  /** The pipelines with a pattern that one of the changed paths matches. */
  predicate Triggered(p: NamedPipeline, changes: seq<string>) {
    exists a, b :: 0 <= a < |p.changes| && 0 <= b < |changes| && ChangePathMatches(p.changes[a], changes[b])
  }

  /** The path is what the pattern names, or lies below it if that is a directory, wherever the checkout is. */
  predicate Concerns(pattern: string, path: string, top: seq<string>) {
    var (named, changed) := (Resolve(top, Split(NamedPath(pattern), '/')), Resolve(top, Split(path, '/')));
    if HasSuffix(pattern, "/**") then named <= changed else named == changed
  }

  /** So a pipeline is triggered exactly when a change concerns one of its patterns. */
  lemma TriggeredExactly(p: NamedPipeline, changes: seq<string>, top: seq<string>)
    requires PlainFieldsOk(p) && forall b | 0 <= b < |changes| :: ValidRelativePath(changes[b])
    ensures Triggered(p, changes)
       <==> exists a, b :: 0 <= a < |p.changes| && 0 <= b < |changes| && Concerns(p.changes[a], changes[b], top)
  {
    forall a, b | 0 <= a < |p.changes| && 0 <= b < |changes|
      ensures ChangePathMatches(p.changes[a], changes[b]) <==> Concerns(p.changes[a], changes[b], top)
    {
      assert ValidChangePattern(p.changes[a]);
      MatchesExactly(p.changes[a], changes[b], top);
    }
  }

  /** Some change triggers each accepted pipeline: that of what its first pattern names. */
  lemma CanBeTriggered(p: NamedPipeline) returns (path: string)
    requires PlainFieldsOk(p)
    ensures ValidRelativePath(path) && Triggered(p, [path])
  {
    path := NamedPath(p.changes[0]);
    assert ValidChangePattern(p.changes[0]);
    assert ChangePathMatches(p.changes[0], [path][0]);
  }

  function SubmissionOf(p: NamedPipeline, o: Queue.Origin, uuid: nat): Queue.Submission {
    Queue.Submission(o, Some(p.name), p.needs, Some(p.runnerOs), Some(p.config), true, uuid)
  }

  function EnqueueOne(before: Queue.Db, p: NamedPipeline, changes: seq<string>, o: Queue.Origin, uuid: nat)
    : Option<Queue.Db>
  {
    if !Triggered(p, changes) then Some(before)
    else if Queue.Rejects(before, SubmissionOf(p, o, uuid)) then None
    else Some(Queue.Submit(before, SubmissionOf(p, o, uuid)))
  }

  /** The first n pipelines of the definition, if triggered, under one new group; None when one of them is refused. */
  function Enqueue(db: Queue.Db, g: DefinitionFile, changes: seq<string>, o: Queue.Origin, uuids: seq<nat>, n: nat)
    : Option<Queue.Db>
    requires n <= |g.pipelines| <= |uuids|
  {
    if n == 0 then Some(db)
    else
      var before := Enqueue(db, g, changes, o, uuids, n - 1);
      if before.None? then None else EnqueueOne(before.value, g.pipelines[n-1], changes, o, uuids[n-1])
  }

  /** One push is one transaction: all its pipelines are queued, or none. */
  function Push(db: Queue.Db, g: DefinitionFile, changes: seq<string>, o: Queue.Origin, uuids: seq<nat>): Queue.Db
    requires |g.pipelines| <= |uuids|
  {
    var after := Enqueue(db, g, changes, o, uuids, |g.pipelines|);
    if after.Some? then after.value else db
  }

  /** Row i was made from one of the first n pipelines of g and is still queued. */
  ghost predicate MadeFrom(g: DefinitionFile, n: nat, row: Queue.Pipeline)
    requires n <= |g.pipelines|
  {
    && row.status.Queued?
    && exists k :: 0 <= k < n && IsRowOf(g.pipelines[k], row)
  }

  /** What the row of a pipeline takes from the definition: its needs, where it runs and what it runs. */
  predicate IsRowOf(p: NamedPipeline, row: Queue.Pipeline) {
    && row.name == Some(p.name) && row.needs == p.needs
    && row.os == Some(p.runnerOs) && row.spec == Some(p.config) && row.pushed
  }

  ghost predicate AllMadeFrom(g: DefinitionFile, n: nat, rows: seq<Queue.Pipeline>, o: Queue.Origin)
    requires n <= |g.pipelines|
  {
    forall i | 0 <= i < |rows| && rows[i].origin == o :: MadeFrom(g, n, rows[i])
  }

  /** One more row of another name keeps the group in order. */
  lemma MadeOneMore(g: DefinitionFile, n: nat, rows: seq<Queue.Pipeline>, o: Queue.Origin)
    requires n < |g.pipelines| && NoDup(PipelineNames(g.pipelines)) && AllMadeFrom(g, n, rows, o)
    ensures forall i | 0 <= i < |rows| && rows[i].origin == o ::
              MadeFrom(g, n + 1, rows[i]) && rows[i].name != Some(g.pipelines[n].name)
  {
    forall i | 0 <= i < |rows| && rows[i].origin == o
      ensures MadeFrom(g, n + 1, rows[i]) && rows[i].name != Some(g.pipelines[n].name)
    {
      assert MadeFrom(g, n, rows[i]);
      var k :| 0 <= k < n && IsRowOf(g.pipelines[k], rows[i]);
      assert PipelineNames(g.pipelines)[k] != PipelineNames(g.pipelines)[n];
    }
  }

  lemma GroupWithRow(g: DefinitionFile, n: nat, rows: seq<Queue.Pipeline>, row: Queue.Pipeline, o: Queue.Origin)
    requires n <= |g.pipelines| && AllMadeFrom(g, n, rows, o) && MadeFrom(g, n, row)
    requires RunGroups.NamesOnce(rows, o)
    requires forall i | 0 <= i < |rows| && rows[i].origin == o :: rows[i].name != row.name
    ensures AllMadeFrom(g, n, rows + [row], o) && RunGroups.NamesOnce(rows + [row], o)
  {
  }

  lemma OneMoreInGroup(before: Queue.Db, g: DefinitionFile, n: nat, changes: seq<string>, o: Queue.Origin, uuid: nat)
    requires 0 < n <= |g.pipelines| && QueueRuns.Sound(before) && NoDup(PipelineNames(g.pipelines))
    requires AllMadeFrom(g, n - 1, before.pipelines, o) && RunGroups.NamesOnce(before.pipelines, o)
    requires EnqueueOne(before, g.pipelines[n-1], changes, o, uuid).Some?
    ensures var after := EnqueueOne(before, g.pipelines[n-1], changes, o, uuid).value;
            && AllMadeFrom(g, n, after.pipelines, o) && RunGroups.NamesOnce(after.pipelines, o)
            && QueueRuns.Sound(after)
  {
    MadeOneMore(g, n - 1, before.pipelines, o);
    var s := SubmissionOf(g.pipelines[n-1], o, uuid);
    assert IsRowOf(g.pipelines[n-1], Queue.SubmittedRow(s, before.now));
    if Triggered(g.pipelines[n-1], changes) {
      QueueRuns.StepKeepsSound(before, QueueRuns.SubmitStep(s));
      GroupWithRow(g, n, before.pipelines, Queue.SubmittedRow(s, before.now), o);
    }
  }

  lemma {:induction false} EnqueueMakesGroup(db: Queue.Db, g: DefinitionFile, changes: seq<string>, o: Queue.Origin,
                                             uuids: seq<nat>, n: nat)
    requires n <= |g.pipelines| <= |uuids| && QueueRuns.Sound(db) && NoDup(PipelineNames(g.pipelines))
    requires forall i | 0 <= i < |db.pipelines| :: db.pipelines[i].origin != o
    requires Enqueue(db, g, changes, o, uuids, n).Some?
    ensures var rows := Enqueue(db, g, changes, o, uuids, n).value.pipelines;
            AllMadeFrom(g, n, rows, o) && RunGroups.NamesOnce(rows, o)
    ensures QueueRuns.Sound(Enqueue(db, g, changes, o, uuids, n).value)
  {
    if n > 0 {
      EnqueueMakesGroup(db, g, changes, o, uuids, n - 1);
      OneMoreInGroup(Enqueue(db, g, changes, o, uuids, n - 1).value, g, n, changes, o, uuids[n-1]);
    }
  }

  predicate HasRow(rows: seq<Queue.Pipeline>, o: Queue.Origin, name: string) {
    exists i :: 0 <= i < |rows| && rows[i].origin == o && rows[i].name == Some(name)
  }

  lemma RowAdded(before: Queue.Db, s: Queue.Submission, name: string)
    requires !Queue.Rejects(before, s)
    ensures HasRow(Queue.Submit(before, s).pipelines, s.origin, name)
       <==> HasRow(before.pipelines, s.origin, name) || s.name == Some(name)
  {
    var after := Queue.Submit(before, s).pipelines;
    assert after[|before.pipelines|].origin == s.origin && after[|before.pipelines|].name == s.name;
    if HasRow(before.pipelines, s.origin, name) {
      var i :| 0 <= i < |before.pipelines| && before.pipelines[i].origin == s.origin
          && before.pipelines[i].name == Some(name);
      assert after[i] == before.pipelines[i];
    }
  }

  predicate TriggeredBefore(g: DefinitionFile, changes: seq<string>, n: nat, name: string)
    requires n <= |g.pipelines|
  {
    exists k :: 0 <= k < n && g.pipelines[k].name == name && Triggered(g.pipelines[k], changes)
  }

  lemma {:induction false} EnqueueHasRows(db: Queue.Db, g: DefinitionFile, changes: seq<string>, o: Queue.Origin,
                                          uuids: seq<nat>, n: nat, name: string)
    requires n <= |g.pipelines| <= |uuids| && Enqueue(db, g, changes, o, uuids, n).Some?
    requires forall i | 0 <= i < |db.pipelines| :: db.pipelines[i].origin != o
    ensures HasRow(Enqueue(db, g, changes, o, uuids, n).value.pipelines, o, name)
       <==> TriggeredBefore(g, changes, n, name)
  {
    if n > 0 {
      EnqueueHasRows(db, g, changes, o, uuids, n - 1, name);
      var before, p := Enqueue(db, g, changes, o, uuids, n - 1).value, g.pipelines[n-1];
      assert TriggeredBefore(g, changes, n, name)
        <==> TriggeredBefore(g, changes, n - 1, name) || (p.name == name && Triggered(p, changes));
      if Triggered(p, changes) {
        RowAdded(before, SubmissionOf(p, o, uuids[n-1]), name);
      }
    }
  }

  /** The rows that the first n pipelines added, and nothing else. */
  ghost predicate Adds(db: Queue.Db, after: Queue.Db, g: DefinitionFile, o: Queue.Origin, uuids: seq<nat>, n: nat)
    requires n <= |g.pipelines| <= |uuids|
  {
    && after == db.(pipelines := after.pipelines) && db.pipelines <= after.pipelines
    && forall i | |db.pipelines| <= i < |after.pipelines| :: IsAdded(after.pipelines[i], g, o, uuids, n)
  }

  ghost predicate IsAdded(row: Queue.Pipeline, g: DefinitionFile, o: Queue.Origin, uuids: seq<nat>, n: nat)
    requires n <= |g.pipelines| <= |uuids|
  {
    row.origin == o && exists k :: 0 <= k < n && row.name == Some(g.pipelines[k].name) && row.uuid == uuids[k]
  }

  predicate AllDistinct(uuids: seq<nat>) {
    forall i, j | 0 <= i < j < |uuids| :: uuids[i] != uuids[j]
  }

  /** Rows of the same push do not stand in each other's way. */
  lemma AddedDoesNotCollide(row: Queue.Pipeline, g: DefinitionFile, o: Queue.Origin, uuids: seq<nat>, n: nat)
    requires n < |g.pipelines| <= |uuids| && NoDup(PipelineNames(g.pipelines)) && AllDistinct(uuids)
    requires IsAdded(row, g, o, uuids, n)
    ensures !Queue.Collides(row, SubmissionOf(g.pipelines[n], o, uuids[n]))
  {
    var k :| 0 <= k < n && row.name == Some(g.pipelines[k].name) && row.uuid == uuids[k];
    assert PipelineNames(g.pipelines)[k] != PipelineNames(g.pipelines)[n];
  }

  lemma RejectedAsBefore(db: Queue.Db, after: Queue.Db, g: DefinitionFile, o: Queue.Origin, uuids: seq<nat>, n: nat)
    requires n < |g.pipelines| <= |uuids| && NoDup(PipelineNames(g.pipelines)) && AllDistinct(uuids)
    requires Adds(db, after, g, o, uuids, n)
    ensures var s := SubmissionOf(g.pipelines[n], o, uuids[n]); Queue.Rejects(after, s) <==> Queue.Rejects(db, s)
  {
    var s := SubmissionOf(g.pipelines[n], o, uuids[n]);
    if Queue.Rejects(db, s) {
      var i :| 0 <= i < |db.pipelines| && Queue.Collides(db.pipelines[i], s);
      assert after.pipelines[i] == db.pipelines[i];
    }
    if Queue.Rejects(after, s) {
      var i :| 0 <= i < |after.pipelines| && Queue.Collides(after.pipelines[i], s);
      if i >= |db.pipelines| {
        AddedDoesNotCollide(after.pipelines[i], g, o, uuids, n);
      } else {
        assert after.pipelines[i] == db.pipelines[i];
      }
    }
  }

  /** The submission of the k-th pipeline is due and could not be made on its own. */
  predicate Blocked(db: Queue.Db, g: DefinitionFile, changes: seq<string>, o: Queue.Origin, uuids: seq<nat>, k: nat)
    requires k < |g.pipelines| <= |uuids|
  {
    Triggered(g.pipelines[k], changes) && Queue.Rejects(db, SubmissionOf(g.pipelines[k], o, uuids[k]))
  }

  lemma AddsOneMore(db: Queue.Db, before: Queue.Db, g: DefinitionFile, changes: seq<string>, o: Queue.Origin,
                    uuids: seq<nat>, n: nat)
    requires n < |g.pipelines| <= |uuids| && NoDup(PipelineNames(g.pipelines)) && AllDistinct(uuids)
    requires Adds(db, before, g, o, uuids, n)
    ensures var after := EnqueueOne(before, g.pipelines[n], changes, o, uuids[n]);
            && (after.Some? <==> !Blocked(db, g, changes, o, uuids, n))
            && (after.Some? ==> Adds(db, after.value, g, o, uuids, n + 1))
  {
    RejectedAsBefore(db, before, g, o, uuids, n);
    forall i | |db.pipelines| <= i < |before.pipelines|
      ensures IsAdded(before.pipelines[i], g, o, uuids, n + 1)
    {
      assert IsAdded(before.pipelines[i], g, o, uuids, n);
    }
    assert IsAdded(Queue.SubmittedRow(SubmissionOf(g.pipelines[n], o, uuids[n]), db.now), g, o, uuids, n + 1);
  }

  lemma {:induction false} EnqueuesExactly(db: Queue.Db, g: DefinitionFile, changes: seq<string>, o: Queue.Origin,
                                           uuids: seq<nat>, n: nat)
    requires n <= |g.pipelines| <= |uuids| && NoDup(PipelineNames(g.pipelines)) && AllDistinct(uuids)
    ensures var after := Enqueue(db, g, changes, o, uuids, n);
            && (after.Some? <==> forall k | 0 <= k < n :: !Blocked(db, g, changes, o, uuids, k))
            && (after.Some? ==> Adds(db, after.value, g, o, uuids, n))
  {
    if n > 0 {
      EnqueuesExactly(db, g, changes, o, uuids, n - 1);
      var before := Enqueue(db, g, changes, o, uuids, n - 1);
      if before.Some? {
        AddsOneMore(db, before.value, g, changes, o, uuids, n - 1);
      }
    }
  }

  /**
   * All or nothing: a push into a new group queues rows for exactly the pipelines with a pattern that matches one of
   * the changed paths, unless one of these could not be queued on its own; then it changes nothing.
   */
  lemma PushQueuesTriggered(db: Queue.Db, g: DefinitionFile, changes: seq<string>, o: Queue.Origin, uuids: seq<nat>)
    requires |g.pipelines| <= |uuids| && AllDistinct(uuids) && NoDup(PipelineNames(g.pipelines))
    requires forall i | 0 <= i < |db.pipelines| :: db.pipelines[i].origin != o
    ensures var after := Push(db, g, changes, o, uuids);
            if forall k | 0 <= k < |g.pipelines| :: !Blocked(db, g, changes, o, uuids, k) then
              && db.pipelines <= after.pipelines && after == db.(pipelines := after.pipelines)
              && (forall i | |db.pipelines| <= i < |after.pipelines| :: after.pipelines[i].origin == o)
              && (forall name :: HasRow(after.pipelines, o, name)
                                 <==> TriggeredBefore(g, changes, |g.pipelines|, name))
            else after == db
  {
    EnqueuesExactly(db, g, changes, o, uuids, |g.pipelines|);
    if Enqueue(db, g, changes, o, uuids, |g.pipelines|).Some? {
      forall name
        ensures HasRow(Push(db, g, changes, o, uuids).pipelines, o, name)
           <==> TriggeredBefore(g, changes, |g.pipelines|, name)
      {
        EnqueueHasRows(db, g, changes, o, uuids, |g.pipelines|, name);
      }
    }
  }

  /** The specification frozen for a named pipeline is its own. */
  lemma FrozenSpecIsOwn(g: DefinitionFile, k: nat)
    requires k < |g.pipelines| && NoDup(PipelineNames(g.pipelines))
    ensures var p := g.pipelines[k];
            FrozenSpec(g, Some(p.name)) == Some(ExecutionSpec(1, p.config, p.workingDirectory, Some(p.runnerOs)))
  {
    NoDupIndex(PipelineNames(g.pipelines), k);
  }

  /** Each row that a push queues carries the configuration and the runner OS that are frozen for its name. */
  lemma PushedRowIsFrozen(db: Queue.Db, g: DefinitionFile, changes: seq<string>, o: Queue.Origin, uuids: seq<nat>,
                          i: nat)
    requires |g.pipelines| <= |uuids| && QueueRuns.Sound(db) && NoDup(PipelineNames(g.pipelines))
    requires forall k | 0 <= k < |db.pipelines| :: db.pipelines[k].origin != o
    requires i < |Push(db, g, changes, o, uuids).pipelines| && Push(db, g, changes, o, uuids).pipelines[i].origin == o
    ensures var row := Push(db, g, changes, o, uuids).pipelines[i];
            var spec := FrozenSpec(g, row.name);
            && spec.Some? && row.spec == Some(spec.value.config) && row.os == spec.value.runnerOs
            && row.os.Some? && row.status.Queued? && row.pushed
  {
    var row := Push(db, g, changes, o, uuids).pipelines[i];
    EnqueueMakesGroup(db, g, changes, o, uuids, |g.pipelines|);
    assert MadeFrom(g, |g.pipelines|, row);
    var k :| 0 <= k < |g.pipelines| && IsRowOf(g.pipelines[k], row);
    FrozenSpecIsOwn(g, k);
  }

  function NameOf(rows: seq<Queue.Pipeline>): nat -> string {
    (i: nat) => if i < |rows| && rows[i].name.Some? then rows[i].name.value else ""
  }

  /** Needs between the rows of a group are needs between the pipelines of the file. */
  lemma GroupNeedIsFileNeed(g: DefinitionFile, rows: seq<Queue.Pipeline>, o: Queue.Origin, i: nat, y: nat)
    requires AllMadeFrom(g, |g.pipelines|, rows, o) && NoDup(PipelineNames(g.pipelines))
    requires RunGroups.Needs(rows, i, y) && rows[i].origin == o
    ensures G.Edge(JobGraph(NeedsView(g.pipelines).jobs), NameOf(rows)(i), NameOf(rows)(y))
  {
    var jobs := NeedsView(g.pipelines).jobs;
    assert MadeFrom(g, |g.pipelines|, rows[i]);
    var k :| 0 <= k < |g.pipelines| && IsRowOf(g.pipelines[k], rows[i]);
    assert Names(jobs) == PipelineNames(g.pipelines);
    NoDupIndex(Names(jobs), k);
  }

  /**
   * The group of one push satisfies what gating, propagation and progress rest on: all queued, each name
   * once, needs without cycles.
   */
  lemma PushGroupIsFresh(l: Limits, db: Queue.Db, g: DefinitionFile, changes: seq<string>, o: Queue.Origin,
                         uuids: seq<nat>)
    requires IsStored(l, g) && g.pipelines != [] && |g.pipelines| <= |uuids| && QueueRuns.Sound(db)
    requires forall i | 0 <= i < |db.pipelines| :: db.pipelines[i].origin != o
    ensures var after := Push(db, g, changes, o, uuids);
            RunGroups.FreshGroup(after, o) && G.Acyclic(RunGroups.GroupGraph(after.pipelines, o))
  {
    var f :| FileOk(l, f) && SameButOrdered(l, f, g);
    ValidatedFileIsOk(l, f, g);
    var after := Push(db, g, changes, o, uuids);
    if Enqueue(db, g, changes, o, uuids, |g.pipelines|).Some? {
      EnqueueMakesGroup(db, g, changes, o, uuids, |g.pipelines|);
    }
    var graph, names := RunGroups.GroupGraph(after.pipelines, o), JobGraph(NeedsView(g.pipelines).jobs);
    forall i: nat, y: nat | G.Edge(graph, i, y)
      ensures G.Edge(names, NameOf(after.pipelines)(i), NameOf(after.pipelines)(y))
    {
      GroupNeedIsFileNeed(g, after.pipelines, o, i, y);
    }
    forall i
      ensures !G.OnCycle(graph, i)
    {
      if G.OnCycle(graph, i) {
        G.MappedCycle(graph, names, NameOf(after.pipelines), i);
      }
    }
    forall i | 0 <= i < |after.pipelines| && after.pipelines[i].origin == o
      ensures after.pipelines[i].status.Queued?
    {
      assert MadeFrom(g, |g.pipelines|, after.pipelines[i]);
    }
  }

  // ---------- saved versions ----------

  datatype Scope = Scope(resource: string, branch: string)

  datatype Mode = FileMode | DbMode

  datatype Head = Head(mode: Mode, active: Option<nat>, lock: nat)

  datatype Revision = Revision(scope: Scope, version: nat, definition: DefinitionFile)

  datatype Store = Store(heads: map<Scope, Head>, revisions: seq<Revision>)

  datatype EditError = Invalid(error: FileError) | Conflict | NotFound | DuplicateVersion | NotCommitted

  /** Save carries the validated definition; UseFile the validated definition found in the repository. */
  datatype Edit =
    | Save(scope: Scope, expected: nat, definition: DefinitionFile)
    | Restore(scope: Scope, expected: nat, revision: nat)
    | UseFile(scope: Scope, expected: nat, definition: DefinitionFile)

  function LockOf(st: Store, s: Scope): nat {
    if s in st.heads then st.heads[s].lock else 0
  }

  predicate VersionTaken(st: Store, s: Scope, version: nat) {
    exists k :: 0 <= k < |st.revisions| && st.revisions[k].scope == s && st.revisions[k].version == version
  }

  /** Why the edit is refused; None when it is made. */
  function Refusal(st: Store, e: Edit): Option<EditError> {
    match e
    case Save(s, expected, g) =>
      if LockOf(st, s) != expected then Some(Conflict)
      else if VersionTaken(st, s, expected + 1) then Some(DuplicateVersion)
      else None
    case Restore(s, expected, id) =>
      if s !in st.heads then Some(NotFound)
      else if st.heads[s].lock != expected then Some(Conflict)
      else if id < |st.revisions| && st.revisions[id].scope == s then None
      else Some(NotFound)
    case UseFile(s, expected, g) =>
      if s !in st.heads then Some(NotFound)
      else if st.heads[s].lock != expected then Some(Conflict)
      else if st.heads[s].active.None? || st.heads[s].active.value >= |st.revisions| then Some(NotFound)
      else if st.revisions[st.heads[s].active.value].definition != g then Some(NotCommitted)
      else None
  }

  function Edited(st: Store, e: Edit): Store {
    if Refusal(st, e).Some? then st
    else
      var lock := LockOf(st, e.scope) + 1;
      match e
      case Save(s, expected, g) =>
        Store(st.heads[s := Head(DbMode, Some(|st.revisions|), lock)], st.revisions + [Revision(s, expected + 1, g)])
      case Restore(s, _, id) => st.(heads := st.heads[s := Head(DbMode, Some(id), lock)])
      case UseFile(s, _, _) => st.(heads := st.heads[s := Head(FileMode, st.heads[s].active, lock)])
  }

  function EditedAll(st: Store, edits: seq<Edit>): Store
    decreases edits
  {
    if edits == [] then st else EditedAll(Edited(st, edits[0]), edits[1..])
  }

  /** Versions never exceed the lock, are unique per scope, and the active version belongs to its scope. */
  predicate StoreOk(st: Store) {
    && (forall k | 0 <= k < |st.revisions| ::
          st.revisions[k].scope in st.heads && st.revisions[k].version <= st.heads[st.revisions[k].scope].lock)
    && (forall i, j | 0 <= i < j < |st.revisions| && st.revisions[i].scope == st.revisions[j].scope ::
          st.revisions[i].version < st.revisions[j].version)
    && (forall s | s in st.heads :: st.heads[s].active.Some? && st.heads[s].active.value < |st.revisions|
          && st.revisions[st.heads[s].active.value].scope == s)
  }

  lemma EditKeepsStore(st: Store, e: Edit)
    requires StoreOk(st)
    ensures StoreOk(Edited(st, e))
    ensures forall s :: LockOf(Edited(st, e), s)
                     == LockOf(st, s) + if s == e.scope && Refusal(st, e).None? then 1 else 0
    ensures st.revisions <= Edited(st, e).revisions
  {
    if Refusal(st, e).None? && e.Save? {
      SaveKeepsStore(st, e);
    }
  }

  lemma SaveKeepsStore(st: Store, e: Edit)
    requires StoreOk(st) && e.Save? && Refusal(st, e).None?
    ensures StoreOk(Edited(st, e))
  {
    var after := Edited(st, e);
    forall k | 0 <= k < |after.revisions|
      ensures after.revisions[k].scope in after.heads
      ensures after.revisions[k].version <= after.heads[after.revisions[k].scope].lock
    {
      assert k < |st.revisions| ==> after.revisions[k] == st.revisions[k];
    }
    forall i, j | 0 <= i < j < |after.revisions| && after.revisions[i].scope == after.revisions[j].scope
      ensures after.revisions[i].version < after.revisions[j].version
    {
      assert after.revisions[i] == st.revisions[i];
    }
  }

  /** `active`: the definition pushes are run from; None when it is the file in the repository. */
  function InForce(st: Store, s: Scope): Option<DefinitionFile> {
    if s !in st.heads || st.heads[s].mode != DbMode then None
    else if st.heads[s].active.Some? && st.heads[s].active.value < |st.revisions|
    then Some(st.revisions[st.heads[s].active.value].definition)
    else None
  }

  /** The edit was made, and these are the definitions in force before and after it. */
  lemma EditBrings(st: Store, e: Edit)
    requires StoreOk(st) && Refusal(st, e).None?
    ensures match e
            case Save(s, _, g) => InForce(Edited(st, e), s) == Some(g)
            case Restore(s, _, id) =>
              && id < |st.revisions| && st.revisions[id].scope == s
              && InForce(Edited(st, e), s) == Some(st.revisions[id].definition)
            case UseFile(s, _, g) =>
              && InForce(Edited(st, e), s) == None
              && (InForce(st, s).Some? ==> InForce(st, s) == Some(g))
  {
  }

  /** An edit of another scope, or one that is refused, leaves the definition in force alone. */
  lemma OtherEditKeepsInForce(st: Store, e: Edit, s: Scope)
    requires StoreOk(st) && (e.scope != s || Refusal(st, e).Some?)
    ensures InForce(Edited(st, e), s) == InForce(st, s)
  {
  }

  /** The switch to the file is made exactly under the current lock, when the file says what is in force. */
  lemma SwitchNeedsSameDefinition(st: Store, s: Scope, expected: nat, g: DefinitionFile)
    requires StoreOk(st) && InForce(st, s).Some?
    ensures Refusal(st, UseFile(s, expected, g)).None? <==> expected == LockOf(st, s) && InForce(st, s) == Some(g)
  {
  }

  /** The k-th edit of the list is made. */
  predicate IsMade(st: Store, edits: seq<Edit>, k: nat)
    requires k < |edits|
  {
    Refusal(EditedAll(st, edits[..k]), edits[k]).None?
  }

  /** No edit of the scope is made at position n or later. */
  predicate NoneMadeFrom(st: Store, edits: seq<Edit>, n: nat, s: Scope) {
    forall k {:trigger IsMade(st, edits, k)} | n <= k < |edits| :: edits[k].scope == s ==> !IsMade(st, edits, k)
  }

  lemma {:induction false} EditedAllConcat(st: Store, a: seq<Edit>, b: seq<Edit>)
    ensures EditedAll(st, a + b) == EditedAll(EditedAll(st, a), b)
    decreases a
  {
    if a == [] {
      assert a + b == b;
    } else {
      assert (a + b)[1..] == a[1..] + b;
      EditedAllConcat(Edited(st, a[0]), a[1..], b);
    }
  }

  lemma EditedAllNext(st: Store, edits: seq<Edit>, k: nat)
    requires k < |edits|
    ensures EditedAll(st, edits[..k+1]) == Edited(EditedAll(st, edits[..k]), edits[k])
  {
    assert edits[..k+1] == edits[..k] + [edits[k]];
    EditedAllConcat(st, edits[..k], [edits[k]]);
  }

  /** From position n on, until position k, the scope keeps its definition. */
  lemma {:induction false} InForceLasts(st: Store, edits: seq<Edit>, n: nat, k: nat, s: Scope)
    requires StoreOk(st) && n <= k <= |edits| && NoneMadeFrom(st, edits, n, s)
    ensures InForce(EditedAll(st, edits[..k]), s) == InForce(EditedAll(st, edits[..n]), s)
    decreases k - n
  {
    if n < k {
      InForceLasts(st, edits, n, k - 1, s);
      EditedAllNext(st, edits, k - 1);
      EditsKeepStore(st, edits[..k-1], s);
      assert edits[k-1].scope == s ==> !IsMade(st, edits, k - 1);
      OtherEditKeepsInForce(EditedAll(st, edits[..k-1]), edits[k-1], s);
    }
  }

  /**
   * Over every list of edits, whatever is refused or concerns other scopes in between: in force is what the last
   * edit made of the scope brought, a saved definition, a restored one, or none.
   */
  lemma LastEditIsInForce(st: Store, edits: seq<Edit>, n: nat)
    requires StoreOk(st) && n < |edits| && IsMade(st, edits, n) && NoneMadeFrom(st, edits, n + 1, edits[n].scope)
    ensures var (end, s) := (EditedAll(st, edits), edits[n].scope);
            match edits[n]
            case Save(_, _, g) => InForce(end, s) == Some(g)
            case Restore(_, _, id) => id < |end.revisions| && InForce(end, s) == Some(end.revisions[id].definition)
            case UseFile(_, _, _) => InForce(end, s) == None
  {
    var before, s := EditedAll(st, edits[..n]), edits[n].scope;
    EditsKeepStore(st, edits[..n], s);
    EditBrings(before, edits[n]);
    EditedAllNext(st, edits, n);
    assert edits[..|edits|] == edits;
    InForceLasts(st, edits, n + 1, |edits|, s);
    RevisionsStay(st, edits, n);
  }

  lemma RevisionsStay(st: Store, edits: seq<Edit>, n: nat)
    requires StoreOk(st) && n <= |edits|
    ensures EditedAll(st, edits[..n]).revisions <= EditedAll(st, edits).revisions
  {
    if edits != [] {
      assert edits == edits[..n] + edits[n..];
      EditedAllConcat(st, edits[..n], edits[n..]);
      EditsKeepStore(st, edits[..n], edits[0].scope);
      EditsKeepStore(EditedAll(st, edits[..n]), edits[n..], edits[0].scope);
    }
  }

  /** And without any edit made of it, a scope keeps the definition it had. */
  lemma UneditedStaysInForce(st: Store, edits: seq<Edit>, s: Scope)
    requires StoreOk(st) && NoneMadeFrom(st, edits, 0, s)
    ensures InForce(EditedAll(st, edits), s) == InForce(st, s)
  {
    assert edits[..|edits|] == edits && edits[..0] == [];
    InForceLasts(st, edits, 0, |edits|, s);
  }

  /** Every version that was ever saved can be brought back, at any later time, under the lock of that time. */
  lemma SavedCanBeRestored(st: Store, save: Edit, between: seq<Edit>)
    requires StoreOk(st) && save.Save? && Refusal(st, save).None?
    ensures var now := EditedAll(Edited(st, save), between);
            var e := Restore(save.scope, LockOf(now, save.scope), |st.revisions|);
            Refusal(now, e).None? && InForce(Edited(now, e), save.scope) == Some(save.definition)
  {
    EditKeepsStore(st, save);
    EditsKeepStore(Edited(st, save), between, save.scope);
    var now := EditedAll(Edited(st, save), between);
    assert now.revisions[|st.revisions|] == Edited(st, save).revisions[|st.revisions|];
  }

  lemma {:induction false} EditsKeepStore(st: Store, edits: seq<Edit>, s: Scope)
    requires StoreOk(st)
    ensures StoreOk(EditedAll(st, edits)) && LockOf(st, s) <= LockOf(EditedAll(st, edits), s)
    ensures st.revisions <= EditedAll(st, edits).revisions
    decreases edits
  {
    if edits != [] {
      EditKeepsStore(st, edits[0]);
      EditsKeepStore(Edited(st, edits[0]), edits[1..], s);
    }
  }

  /** An edit that names the current lock version is never refused for a version number already taken. */
  lemma NextVersionIsFree(st: Store, s: Scope, g: DefinitionFile)
    requires StoreOk(st)
    ensures Refusal(st, Save(s, LockOf(st, s), g)).None?
  {
  }

  /** Optimistic locking: of all edits that expect one lock version, at most one is ever made. */
  lemma OneEditPerLockVersion(st: Store, first: Edit, between: seq<Edit>, second: Edit)
    requires StoreOk(st) && first.scope == second.scope && first.expected == second.expected
    requires Refusal(st, first).None?
    ensures Refusal(EditedAll(Edited(st, first), between), second).Some?
  {
    EditKeepsStore(st, first);
    EditsKeepStore(Edited(st, first), between, first.scope);
    MadeMeansExpected(st, first);
    OldLockIsRefused(EditedAll(Edited(st, first), between), second);
  }

  lemma MadeMeansExpected(st: Store, e: Edit)
    requires Refusal(st, e).None?
    ensures LockOf(st, e.scope) == e.expected
  {
  }

  lemma OldLockIsRefused(st: Store, e: Edit)
    requires e.expected < LockOf(st, e.scope)
    ensures Refusal(st, e).Some?
  {
  }

  class ConfigStore {
    var heads: map<Scope, Head>
    var revisions: seq<Revision>

    ghost function State(): Store
      reads this
    {
      Store(heads, revisions)
    }

    constructor ()
      ensures State() == Store(map[], [])
    {
      heads, revisions := map[], [];
    }

    method Activate(s: Scope, id: nat)
      requires s in heads
      modifies this`heads
      ensures heads == old(heads)[s := Head(DbMode, Some(id), old(heads)[s].lock + 1)]
    {
      heads := heads[s := heads[s].(active := Some(id), mode := DbMode, lock := heads[s].lock + 1)];
    }

    /** Stores a validated definition as the next version and activates it. */
    method StoreRevision(s: Scope, expected: nat, g: DefinitionFile) returns (r: Revision)
      requires StoreOk(State()) && LockOf(State(), s) == expected
      modifies this
      ensures Refusal(old(State()), Save(s, expected, g)).None?
      ensures State() == Edited(old(State()), Save(s, expected, g))
      ensures r == Revision(s, expected + 1, g)
    {
      NextVersionIsFree(State(), s, g);
      if s !in heads {
        heads := heads[s := Head(FileMode, None, 0)];
      }
      var id := |revisions|;
      r := Revision(s, expected + 1, g);
      revisions := revisions + [r];
      Activate(s, id);
    }

    /** `save`: validates, checks the lock version, stores a revision and activates it. */
    method SaveDefinition(l: Limits, s: Scope, expected: nat, f: DefinitionFile)
      returns (r: Result<Revision, EditError>)
      requires StoreOk(State())
      modifies this
      ensures StoreOk(State())
      ensures r.Err? ==> State() == old(State())
      ensures r.Ok? <==> FileOk(l, f) && LockOf(old(State()), s) == expected
      ensures r.Ok? ==> r.value == Revision(s, expected + 1, r.value.definition)
      ensures r.Ok? ==> SameButOrdered(l, f, r.value.definition)
      ensures r.Ok? ==> State() == Edited(old(State()), Save(s, expected, r.value.definition))
    {
      var definition := ValidateFile(l, f);
      if definition.Err? {
        return Err(Invalid(definition.error));
      }
      var lock := if s in heads then heads[s].lock else 0;
      if lock != expected {
        return Err(Conflict);
      }
      EditKeepsStore(State(), Save(s, expected, definition.value));
      var revision := StoreRevision(s, expected, definition.value);
      return Ok(revision);
    }
  }
}
