/** Pipeline definitions and their validation (src/ci/config.rs). */
module Config {
  import opened Wrappers
  import opened Text
  import opened Graph
  import opened Topo

  datatype JobConfig = JobConfig(
    name: string, stage: string, needs: seq<string>, script: seq<string>, timeoutSeconds: nat)

  datatype PipelineConfig = PipelineConfig(maxParallelJobs: nat, stages: seq<string>, jobs: seq<JobConfig>)

  /** The numeric bounds of validation; every theorem holds for any choice of them. */
  datatype Limits = Limits(parallel: nat, stages: nat, jobs: nat, needs: nat, timeout: nat, pipelines: nat,
                           pipelineNeeds: nat)

  const SOURCE_LIMITS := Limits(16, 32, 128, 128, 86400, 32, 32)

  datatype ConfigError =
    | InvalidParallelism
    | InvalidStageCount
    | DuplicateStage(stageIndex: nat)
    | InvalidStageName(stageIndex: nat)
    | InvalidJobCount
    | InvalidJobName(jobIndex: nat)
    | UnknownStage(jobIndex: nat)
    | InvalidTimeout(jobIndex: nat)
    | InvalidScript(jobIndex: nat)
    | TooManyNeeds(jobIndex: nat)
    | DuplicateOrSelfNeed(jobIndex: nat)
    | UnknownNeed(jobIndex: nat)
    | LaterStageNeed(jobIndex: nat)
    | DependencyCycle(member: Option<nat>)

  // ---------- names ----------

  predicate IsNameChar(c: char) {
    'a' <= c <= 'z' || 'A' <= c <= 'Z' || '0' <= c <= '9' || c == '_' || c == '-'
  }

  predicate ValidName(name: string) {
    0 < |name| <= 100 && forall k | 0 <= k < |name| :: IsNameChar(name[k])
  }

  /** Unicode White_Space, the characters `str::trim` removes. */
  predicate IsWhitespace(c: char) {
    var n := c as int;
    || 9 <= n <= 13 || n == 0x20 || n == 0x85 || n == 0xA0 || n == 0x1680 || 0x2000 <= n <= 0x200A
    || n == 0x2028 || n == 0x2029 || n == 0x202F || n == 0x205F || n == 0x3000
  }

  predicate ValidScriptLine(line: string) {
    (exists k | 0 <= k < |line| :: !IsWhitespace(line[k])) && '\0' !in line
  }

  predicate ValidScript(script: seq<string>) {
    script != [] && forall k | 0 <= k < |script| :: ValidScriptLine(script[k])
  }

  function IndexOf(s: seq<string>, x: string): (i: nat)
    requires x in s
    ensures i < |s| && s[i] == x
    ensures forall k | 0 <= k < i :: s[k] != x
  {
    if s[0] == x then 0 else 1 + IndexOf(s[1..], x)
  }

  function Names(jobs: seq<JobConfig>): (names: seq<string>)
    ensures |names| == |jobs| && forall k | 0 <= k < |jobs| :: names[k] == jobs[k].name
  {
    seq(|jobs|, k requires 0 <= k < |jobs| => jobs[k].name)
  }

  lemma NoDupIndex(s: seq<string>, i: nat)
    requires NoDup(s) && i < |s|
    ensures s[i] in s && IndexOf(s, s[i]) == i
  {
  }

  // ---------- what a valid configuration is ----------

  ghost predicate StagesOk(l: Limits, c: PipelineConfig) {
    && 0 < |c.stages| <= l.stages
    && NoDup(c.stages)
    && forall k | 0 <= k < |c.stages| :: ValidName(c.stages[k])
  }

  predicate JobOk(l: Limits, c: PipelineConfig, j: JobConfig) {
    ValidName(j.name) && j.stage in c.stages && 1 <= j.timeoutSeconds <= l.timeout && ValidScript(j.script)
  }

  ghost predicate JobsOk(l: Limits, c: PipelineConfig) {
    && 0 < |c.jobs| <= l.jobs
    && NoDup(Names(c.jobs))
    && forall k | 0 <= k < |c.jobs| :: JobOk(l, c, c.jobs[k])
  }

  function StageIndex(c: PipelineConfig, j: JobConfig): nat
    requires j.stage in c.stages
  {
    IndexOf(c.stages, j.stage)
  }

  /** The need names an existing job of the same or an earlier stage. */
  predicate NeedOk(c: PipelineConfig, j: JobConfig, need: string)
    requires j.stage in c.stages && forall k | 0 <= k < |c.jobs| :: c.jobs[k].stage in c.stages
  {
    need in Names(c.jobs) && StageIndex(c, c.jobs[IndexOf(Names(c.jobs), need)]) <= StageIndex(c, j)
  }

  ghost predicate NeedsOk(l: Limits, c: PipelineConfig, j: JobConfig)
    requires j.stage in c.stages && forall k | 0 <= k < |c.jobs| :: c.jobs[k].stage in c.stages
  {
    && |j.needs| <= l.needs && NoDup(j.needs) && j.name !in j.needs
    && forall k | 0 <= k < |j.needs| :: NeedOk(c, j, j.needs[k])
  }

  ghost predicate Staged(c: PipelineConfig) {
    NoDup(Names(c.jobs)) && forall k | 0 <= k < |c.jobs| :: c.jobs[k].stage in c.stages
  }

  /** Unique names, known stages and proper needs: what the emission loop works on. */
  ghost predicate Linkable(l: Limits, c: PipelineConfig) {
    Staged(c) && forall i | 0 <= i < |c.jobs| :: NeedsOk(l, c, c.jobs[i])
  }

  /** Everything validation demands apart from acyclic needs. */
  ghost predicate WellFormed(l: Limits, c: PipelineConfig) {
    && 1 <= c.maxParallelJobs <= l.parallel
    && StagesOk(l, c) && JobsOk(l, c)
    && forall i | 0 <= i < |c.jobs| :: NeedsOk(l, c, c.jobs[i])
  }

  /** Needs between jobs by name; a name stands for the first job that carries it. */
  ghost function JobGraph(jobs: seq<JobConfig>): NeedsGraph<string> {
    map n | n in Names(jobs) :: jobs[IndexOf(Names(jobs), n)].needs
  }

  /** Jobs in an order where needs only point backwards and stages never go back. */
  ghost predicate Validated(l: Limits, c: PipelineConfig) {
    && WellFormed(l, c)
    && (forall i, n | 0 <= i < |c.jobs| && n in c.jobs[i].needs :: n in Names(c.jobs)[..i])
    && (forall i, j | 0 <= i <= j < |c.jobs| :: StageIndex(c, c.jobs[i]) <= StageIndex(c, c.jobs[j]))
  }

  // ---------- needs by index ----------

  ghost predicate KnownNeeds(jobs: seq<JobConfig>) {
    forall i, k | 0 <= i < |jobs| && 0 <= k < |jobs[i].needs| :: jobs[i].needs[k] in Names(jobs)
  }

  ghost function PrereqsOf(jobs: seq<JobConfig>, i: nat): (p: seq<nat>)
    requires i < |jobs| && KnownNeeds(jobs)
    ensures |p| == |jobs[i].needs|
    ensures forall k | 0 <= k < |p| :: p[k] < |jobs| && Names(jobs)[p[k]] == jobs[i].needs[k]
    ensures forall k | 0 <= k < |p| :: p[k] == IndexOf(Names(jobs), jobs[i].needs[k])
  {
    seq(|jobs[i].needs|, k requires 0 <= k < |jobs[i].needs| => IndexOf(Names(jobs), jobs[i].needs[k]))
  }

  ghost function Prereqs(jobs: seq<JobConfig>): (p: seq<seq<nat>>)
    requires KnownNeeds(jobs)
    ensures |p| == |jobs| && forall i | 0 <= i < |jobs| :: p[i] == PrereqsOf(jobs, i)
  {
    seq(|jobs|, i requires 0 <= i < |jobs| => PrereqsOf(jobs, i))
  }

  ghost function StageKeys(c: PipelineConfig): (s: seq<nat>)
    requires forall k | 0 <= k < |c.jobs| :: c.jobs[k].stage in c.stages
    ensures |s| == |c.jobs| && forall k | 0 <= k < |c.jobs| :: s[k] == StageIndex(c, c.jobs[k])
  {
    seq(|c.jobs|, k requires 0 <= k < |c.jobs| => StageIndex(c, c.jobs[k]))
  }

  lemma NeedsAreKnown(l: Limits, c: PipelineConfig)
    requires Linkable(l, c)
    ensures KnownNeeds(c.jobs)
  {
    forall i, k | 0 <= i < |c.jobs| && 0 <= k < |c.jobs[i].needs|
      ensures c.jobs[i].needs[k] in Names(c.jobs)
    {
      assert NeedsOk(l, c, c.jobs[i]);
      assert NeedOk(c, c.jobs[i], c.jobs[i].needs[k]);
    }
  }

  lemma PrereqsAreValid(l: Limits, c: PipelineConfig)
    requires Linkable(l, c)
    ensures KnownNeeds(c.jobs) && ValidPrereqs(Prereqs(c.jobs))
    ensures forall i, y | 0 <= i < |c.jobs| && y in Prereqs(c.jobs)[i] ::
              y < |c.jobs| && StageKeys(c)[y] <= StageKeys(c)[i]
  {
    NeedsAreKnown(l, c);
    var p := Prereqs(c.jobs);
    forall i | 0 <= i < |p|
      ensures NoDup(p[i])
      ensures forall y | y in p[i] :: y < |p| && StageKeys(c)[y] <= StageKeys(c)[i]
    {
      assert NeedsOk(l, c, c.jobs[i]);
      forall a, b | 0 <= a < b < |p[i]|
        ensures p[i][a] != p[i][b]
      {
        assert Names(c.jobs)[p[i][a]] == c.jobs[i].needs[a];
        assert Names(c.jobs)[p[i][b]] == c.jobs[i].needs[b];
      }
      forall y | y in p[i]
        ensures y < |p| && StageKeys(c)[y] <= StageKeys(c)[i]
      {
        var k :| 0 <= k < |p[i]| && p[i][k] == y;
        assert NeedOk(c, c.jobs[i], c.jobs[i].needs[k]);
      }
    }
  }

  /** Index graph and name graph have the same edges, so the same cycles. */
  lemma IndexEdgeIsNameEdge(jobs: seq<JobConfig>, i: nat, y: nat)
    requires KnownNeeds(jobs) && NoDup(Names(jobs)) && Edge(IndexGraph(Prereqs(jobs)), i, y)
    ensures y < |jobs| && Edge(JobGraph(jobs), jobs[i].name, jobs[y].name)
  {
    NoDupIndex(Names(jobs), i);
    var k :| 0 <= k < |PrereqsOf(jobs, i)| && PrereqsOf(jobs, i)[k] == y;
    assert jobs[y].name == jobs[i].needs[k];
  }

  function NameAt(jobs: seq<JobConfig>, i: nat): string {
    if i < |jobs| then jobs[i].name else ""
  }

  function IndexAt(jobs: seq<JobConfig>, n: string): nat {
    if n in Names(jobs) then IndexOf(Names(jobs), n) else 0
  }

  lemma IndexCycleIsNameCycle(jobs: seq<JobConfig>, i: nat)
    requires KnownNeeds(jobs) && NoDup(Names(jobs)) && i < |jobs| && OnCycle(IndexGraph(Prereqs(jobs)), i)
    ensures OnCycle(JobGraph(jobs), jobs[i].name)
  {
    var g, h := IndexGraph(Prereqs(jobs)), JobGraph(jobs);
    var f := (x: nat) => NameAt(jobs, x);
    forall x, y | Edge(g, x, y)
      ensures Edge(h, f(x), f(y))
    {
      IndexEdgeIsNameEdge(jobs, x, y);
    }
    MappedCycle(g, h, f, i);
  }

  lemma NameCycleIsIndexCycle(jobs: seq<JobConfig>, n: string)
    requires KnownNeeds(jobs) && OnCycle(JobGraph(jobs), n)
    ensures OnCycle(IndexGraph(Prereqs(jobs)), IndexAt(jobs, n))
  {
    var g, h := JobGraph(jobs), IndexGraph(Prereqs(jobs));
    var f := (x: string) => IndexAt(jobs, x);
    forall x, y | Edge(g, x, y)
      ensures Edge(h, f(x), f(y))
    {
      var i := IndexOf(Names(jobs), x);
      var k :| 0 <= k < |jobs[i].needs| && jobs[i].needs[k] == y;
      assert PrereqsOf(jobs, i)[k] == f(y);
    }
    MappedCycle(g, h, f, n);
  }

  // ---------- the result of validation ----------

  ghost function Permuted(jobs: seq<JobConfig>, order: seq<nat>): (r: seq<JobConfig>)
    requires forall k | 0 <= k < |order| :: order[k] < |jobs|
    ensures |r| == |order| && forall k | 0 <= k < |order| :: r[k] == jobs[order[k]]
  {
    seq(|order|, k requires 0 <= k < |order| => jobs[order[k]])
  }

  /** The order in which the emission loop lists the jobs. */
  ghost predicate IsJobOrder(l: Limits, c: PipelineConfig, order: seq<nat>)
    requires Linkable(l, c)
  {
    NeedsAreKnown(l, c);
    |order| == |c.jobs| && IsGreedy(Prereqs(c.jobs), StageKeys(c), order)
  }

  /** The diagnostic names a requirement that the configuration really violates. */
  ghost predicate Reports(l: Limits, c: PipelineConfig, e: ConfigError) {
    match e
    case InvalidParallelism => !(1 <= c.maxParallelJobs <= l.parallel)
    case InvalidStageCount => !(0 < |c.stages| <= l.stages)
    case DuplicateStage(s) => s < |c.stages| && c.stages[s] in c.stages[..s]
    case InvalidStageName(s) => s < |c.stages| && !ValidName(c.stages[s])
    case InvalidJobCount => !(0 < |c.jobs| <= l.jobs)
    case InvalidJobName(i) =>
      i < |c.jobs| && (!ValidName(c.jobs[i].name) || c.jobs[i].name in Names(c.jobs)[..i])
    case UnknownStage(i) => i < |c.jobs| && c.jobs[i].stage !in c.stages
    case InvalidTimeout(i) => i < |c.jobs| && !(1 <= c.jobs[i].timeoutSeconds <= l.timeout)
    case InvalidScript(i) => i < |c.jobs| && !ValidScript(c.jobs[i].script)
    case TooManyNeeds(i) => i < |c.jobs| && |c.jobs[i].needs| > l.needs
    case DuplicateOrSelfNeed(i) =>
      i < |c.jobs| && (c.jobs[i].name in c.jobs[i].needs || !NoDup(c.jobs[i].needs))
    case UnknownNeed(i) =>
      i < |c.jobs| && exists k :: 0 <= k < |c.jobs[i].needs| && c.jobs[i].needs[k] !in Names(c.jobs)
    case LaterStageNeed(i) =>
      && Staged(c) && i < |c.jobs|
      && exists k :: 0 <= k < |c.jobs[i].needs| && !NeedOk(c, c.jobs[i], c.jobs[i].needs[k])
    case DependencyCycle(m) =>
      m.Some? && m.value < |c.jobs| && Linkable(l, c) && OnCycle(JobGraph(c.jobs), c.jobs[m.value].name)
  }

  /** v is c with its jobs listed in emission order. */
  ghost predicate Reorders(l: Limits, c: PipelineConfig, order: seq<nat>, v: PipelineConfig)
    requires WellFormed(l, c)
  {
    && IsJobOrder(l, c, order)
    && (forall k | 0 <= k < |order| :: order[k] < |c.jobs|)
    && v == c.(jobs := Permuted(c.jobs, order))
  }

  /** The contract of `PipelineConfig::validate`. */
  ghost predicate IsValidation(l: Limits, c: PipelineConfig, r: Result<PipelineConfig, ConfigError>) {
    match r
    case Ok(v) =>
      && WellFormed(l, c)
      && exists order :: Reorders(l, c, order, v)
    case Err(e) => Reports(l, c, e)
  }

  method CheckStages(l: Limits, c: PipelineConfig) returns (e: Option<ConfigError>)
    ensures e.None? ==> StagesOk(l, c)
    ensures e.Some? ==> Reports(l, c, e.value)
  {
    if !(0 < |c.stages| <= l.stages) {
      return Some(InvalidStageCount);
    }
    var stages: set<string> := {};
    for index := 0 to |c.stages|
      invariant forall x :: x in stages <==> x in c.stages[..index]
      invariant NoDup(c.stages[..index])
      invariant forall k | 0 <= k < index :: ValidName(c.stages[k])
    {
      var stage := c.stages[index];
      assert c.stages[..index+1] == c.stages[..index] + [stage];
      if stage in stages {
        return Some(DuplicateStage(index));
      }
      stages := stages + {stage};
      if !ValidName(stage) {
        return Some(InvalidStageName(index));
      }
    }
    assert c.stages[..|c.stages|] == c.stages;
    return None;
  }

  method CheckJobs(l: Limits, c: PipelineConfig) returns (e: Option<ConfigError>)
    ensures e.None? ==> JobsOk(l, c)
    ensures e.Some? ==> Reports(l, c, e.value)
  {
    if !(0 < |c.jobs| <= l.jobs) {
      return Some(InvalidJobCount);
    }
    var names: set<string> := {};
    ghost var all := Names(c.jobs);
    for index := 0 to |c.jobs|
      invariant forall x :: x in names <==> x in all[..index]
      invariant NoDup(all[..index])
      invariant forall k | 0 <= k < index :: JobOk(l, c, c.jobs[k])
    {
      var job := c.jobs[index];
      assert all[..index+1] == all[..index] + [job.name];
      if !ValidName(job.name) || job.name in names {
        return Some(InvalidJobName(index));
      }
      names := names + {job.name};
      if job.stage !in c.stages {
        return Some(UnknownStage(index));
      }
      if !(1 <= job.timeoutSeconds <= l.timeout) {
        return Some(InvalidTimeout(index));
      }
      if !ValidScript(job.script) {
        return Some(InvalidScript(index));
      }
    }
    assert all[..|c.jobs|] == all;
    return None;
  }

  /** Prerequisites, dependents and indegrees of the jobs seen so far. */
  datatype Links = Links(prerequisites: seq<seq<nat>>, dependents: seq<seq<nat>>, indegrees: seq<nat>)

  ghost function IndicesOf(names: seq<string>, needs: seq<string>, n: nat): (p: seq<nat>)
    requires n <= |needs|
    ensures |p| == n
  {
    seq(n, k requires 0 <= k < n => if needs[k] in names then IndexOf(names, needs[k]) else 0)
  }

  /** After `index` jobs and `n` needs of the next job are linked. */
  ghost predicate Linked(c: PipelineConfig, links: Links, index: nat, n: nat) {
    && index <= |c.jobs| && (index < |c.jobs| ==> n <= |c.jobs[index].needs|)
    && |links.prerequisites| == |links.indegrees| == |c.jobs|
    && (forall i | 0 <= i < |c.jobs| :: links.indegrees[i] == |links.prerequisites[i]|)
    && (forall i | 0 <= i < |c.jobs| :: links.prerequisites[i]
          == IndicesOf(Names(c.jobs), c.jobs[i].needs,
                       if i < index then |c.jobs[i].needs| else if i == index then n else 0))
    && Inverse(links.prerequisites, links.dependents)
  }

  function Link(links: Links, index: nat, dependency: nat): Links
    requires |links.prerequisites| == |links.dependents| == |links.indegrees|
    requires index < |links.indegrees| && dependency < |links.indegrees|
  {
    Links(links.prerequisites[index := links.prerequisites[index] + [dependency]],
          links.dependents[dependency := links.dependents[dependency] + [index]],
          links.indegrees[index := links.indegrees[index] + 1])
  }

  lemma InverseExtended(p: seq<seq<nat>>, d: seq<seq<nat>>, index: nat, dependency: nat)
    requires Inverse(p, d) && index < |p| && dependency < |p| && dependency !in p[index]
    ensures Inverse(p[index := p[index] + [dependency]], d[dependency := d[dependency] + [index]])
  {
    assert index !in d[dependency];
  }

  lemma LinkStep(c: PipelineConfig, links: Links, index: nat, n: nat)
    requires Linked(c, links, index, n) && index < |c.jobs| && n < |c.jobs[index].needs|
    requires forall k | 0 <= k <= n :: c.jobs[index].needs[k] in Names(c.jobs)
    requires c.jobs[index].needs[n] !in c.jobs[index].needs[..n]
    ensures Linked(c, Link(links, index, IndexOf(Names(c.jobs), c.jobs[index].needs[n])), index, n + 1)
  {
    var names, needs := Names(c.jobs), c.jobs[index].needs;
    var d := IndexOf(names, needs[n]);
    var p := links.prerequisites;
    assert p[index] == IndicesOf(names, needs, n);
    forall k | 0 <= k < n
      ensures p[index][k] != d
    {
      assert needs[..n][k] == needs[k] == names[p[index][k]];
    }
    InverseExtended(p, links.dependents, index, d);
    assert p[index] + [d] == IndicesOf(names, needs, n + 1);
  }

  ghost predicate NeedsOkUpTo(c: PipelineConfig, job: JobConfig, n: nat)
    requires job.stage in c.stages && forall k | 0 <= k < |c.jobs| :: c.jobs[k].stage in c.stages
  {
    && n <= |job.needs| && job.name !in job.needs[..n] && NoDup(job.needs[..n])
    && forall k | 0 <= k < n :: NeedOk(c, job, job.needs[k])
  }

  /** The checks on need n of a job; `needs` holds the needs before it. */
  method CheckNeed(l: Limits, c: PipelineConfig, index: nat, n: nat, needs: set<string>)
    returns (e: Option<ConfigError>)
    requires Staged(c) && index < |c.jobs| && n < |c.jobs[index].needs|
    requires forall x :: x in needs <==> x in c.jobs[index].needs[..n]
    ensures var job := c.jobs[index];
            e.None? ==> job.needs[n] != job.name && job.needs[n] !in job.needs[..n] && NeedOk(c, job, job.needs[n])
    ensures e.Some? ==> Reports(l, c, e.value) && !NeedsOk(l, c, c.jobs[index])
  {
    var names, job := Names(c.jobs), c.jobs[index];
    var dependency := job.needs[n];
    if dependency == job.name || dependency in needs {
      assert dependency in job.needs;
      DuplicateIsReported(l, c, index, n);
      return Some(DuplicateOrSelfNeed(index));
    }
    if dependency !in names {
      return Some(UnknownNeed(index));
    }
    if StageIndex(c, c.jobs[IndexOf(names, dependency)]) > StageIndex(c, job) {
      return Some(LaterStageNeed(index));
    }
    return None;
  }

  /** Links the needs of one job, checking them one by one. */
  method LinkJob(l: Limits, c: PipelineConfig, links: Links, index: nat) returns (r: Result<Links, ConfigError>)
    requires Staged(c) && index < |c.jobs| && Linked(c, links, index, 0)
    ensures r.Ok? ==> NeedsOk(l, c, c.jobs[index]) && Linked(c, r.value, index + 1, 0)
    ensures r.Err? ==> Reports(l, c, r.error) && !NeedsOk(l, c, c.jobs[index])
  {
    var names, job := Names(c.jobs), c.jobs[index];
    if |job.needs| > l.needs {
      return Err(TooManyNeeds(index));
    }
    var linked := links;
    var needs: set<string> := {};
    for n := 0 to |job.needs|
      invariant Linked(c, linked, index, n)
      invariant forall x :: x in needs <==> x in job.needs[..n]
      invariant NeedsOkUpTo(c, job, n)
    {
      var e := CheckNeed(l, c, index, n, needs);
      if e.Some? {
        return Err(e.value);
      }
      needs := needs + {job.needs[n]};
      LinkStep(c, linked, index, n);
      linked := Link(linked, index, IndexOf(names, job.needs[n]));
      assert job.needs[..n+1] == job.needs[..n] + [job.needs[n]];
    }
    assert job.needs[..|job.needs|] == job.needs;
    return Ok(linked);
  }

  function Unlinked(n: nat): Links {
    Links(seq(n, _ => []), seq(n, _ => []), seq(n, _ => 0))
  }

  lemma NothingIsLinked(c: PipelineConfig)
    ensures Linked(c, Unlinked(|c.jobs|), 0, 0)
  {
  }

  method LinkNeeds(l: Limits, c: PipelineConfig) returns (r: Result<Links, ConfigError>)
    requires Staged(c)
    ensures r.Ok? ==> Linkable(l, c) && Linked(c, r.value, |c.jobs|, 0)
    ensures r.Err? ==> Reports(l, c, r.error) && !Linkable(l, c)
  {
    var links := Unlinked(|c.jobs|);
    NothingIsLinked(c);
    for index := 0 to |c.jobs|
      invariant Linked(c, links, index, 0)
      invariant forall i | 0 <= i < index :: NeedsOk(l, c, c.jobs[i])
    {
      var linked := LinkJob(l, c, links, index);
      if linked.Err? {
        return Err(linked.error);
      }
      links := linked.value;
    }
    return Ok(links);
  }

  lemma DuplicateIsReported(l: Limits, c: PipelineConfig, index: nat, n: nat)
    requires index < |c.jobs| && n < |c.jobs[index].needs|
    requires c.jobs[index].needs[n] == c.jobs[index].name || c.jobs[index].needs[n] in c.jobs[index].needs[..n]
    ensures Reports(l, c, DuplicateOrSelfNeed(index))
  {
    var needs := c.jobs[index].needs;
    if needs[n] in needs[..n] {
      var k :| 0 <= k < n && needs[k] == needs[n];
    }
  }

  lemma LinkedIsPrereqs(l: Limits, c: PipelineConfig, links: Links)
    requires Linkable(l, c) && Linked(c, links, |c.jobs|, 0)
    ensures KnownNeeds(c.jobs) && links.prerequisites == Prereqs(c.jobs)
  {
    NeedsAreKnown(l, c);
    forall i | 0 <= i < |c.jobs|
      ensures links.prerequisites[i] == PrereqsOf(c.jobs, i)
    {
      assert links.prerequisites[i] == IndicesOf(Names(c.jobs), c.jobs[i].needs, |c.jobs[i].needs|);
    }
  }

  /**
   * `PipelineConfig::validate`: accepts exactly the well-formed configurations with acyclic needs,
   * reordering the jobs; a rejection names a violated requirement, and a cycle diagnostic names a job
   * that lies on a cycle.
   */
  method Validate(l: Limits, c: PipelineConfig) returns (r: Result<PipelineConfig, ConfigError>)
    ensures IsValidation(l, c, r)
    ensures r.Ok? <==> WellFormed(l, c) && Acyclic(JobGraph(c.jobs))
    ensures r.Ok? ==> Validated(l, r.value)
  {
    if !(1 <= c.maxParallelJobs <= l.parallel) {
      return Err(InvalidParallelism);
    }
    var e := CheckStages(l, c);
    if e.Some? {
      RejectedIsNotValid(l, c, e.value);
      return Err(e.value);
    }
    e := CheckJobs(l, c);
    if e.Some? {
      RejectedIsNotValid(l, c, e.value);
      return Err(e.value);
    }
    var ordered := OrderJobs(l, c);
    if ordered.Err? {
      RejectedIsNotValid(l, c, ordered.error);
      return Err(ordered.error);
    }
    var order := ordered.value;
    AcceptedIsValidated(l, c, order);
    var jobs := seq(|order|, k requires 0 <= k < |order| => c.jobs[order[k]]);
    assert jobs == Permuted(c.jobs, order);
    assert Reorders(l, c, order, c.(jobs := jobs));
    return Ok(c.(jobs := jobs));
  }

  /** The second half of validation: links the needs and runs the emission loop. */
  method OrderJobs(l: Limits, c: PipelineConfig) returns (r: Result<seq<nat>, ConfigError>)
    requires Staged(c)
    ensures r.Ok? ==> Linkable(l, c) && IsJobOrder(l, c, r.value)
    ensures r.Ok? ==> forall k | 0 <= k < |r.value| :: r.value[k] < |c.jobs|
    ensures r.Err? ==> Reports(l, c, r.error)
    ensures r.Ok? <==> Linkable(l, c) && Acyclic(JobGraph(c.jobs))
  {
    var linked := LinkNeeds(l, c);
    if linked.Err? {
      return Err(linked.error);
    }
    var links := linked.value;
    LinkedIsPrereqs(l, c, links);
    PrereqsAreValid(l, c);
    var stage := seq(|c.jobs|, k requires 0 <= k < |c.jobs| => StageIndex(c, c.jobs[k]));
    assert stage == StageKeys(c);
    var emission := Emit(links.prerequisites, links.dependents, links.indegrees, stage);
    match emission {
      case Cyclic(member) =>
        IndexCycleIsNameCycle(c.jobs, member.value);
        return Err(DependencyCycle(member));
      case Ordered(order) =>
        GreedyInRange(links.prerequisites, stage, order);
        AcceptedIsAcyclic(l, c, order);
        return Ok(order);
    }
  }

  /** No diagnostic can be reported for a well-formed acyclic configuration. */
  lemma NothingToReport(l: Limits, c: PipelineConfig, e: ConfigError)
    requires WellFormed(l, c) && Acyclic(JobGraph(c.jobs))
    ensures !Reports(l, c, e)
  {
    NeedsAreKnown(l, c);
    if e.InvalidJobName? && e.jobIndex < |c.jobs| {
      assert JobOk(l, c, c.jobs[e.jobIndex]);
      assert forall k | 0 <= k < e.jobIndex :: Names(c.jobs)[k] != Names(c.jobs)[e.jobIndex];
    }
    if (e.TooManyNeeds? || e.DuplicateOrSelfNeed? || e.LaterStageNeed?) && e.jobIndex < |c.jobs| {
      assert NeedsOk(l, c, c.jobs[e.jobIndex]);
    }
  }

  lemma RejectedIsNotValid(l: Limits, c: PipelineConfig, e: ConfigError)
    requires Reports(l, c, e)
    ensures !(WellFormed(l, c) && Acyclic(JobGraph(c.jobs)))
  {
    if WellFormed(l, c) && Acyclic(JobGraph(c.jobs)) {
      NothingToReport(l, c, e);
    }
  }

  lemma AcceptedIsAcyclic(l: Limits, c: PipelineConfig, order: seq<nat>)
    requires Linkable(l, c) && IsJobOrder(l, c, order)
    ensures Acyclic(JobGraph(c.jobs))
  {
    PrereqsAreValid(l, c);
    GreedyIsTopological(Prereqs(c.jobs), StageKeys(c), order);
    TopologicalIsAcyclic(Prereqs(c.jobs), order);
    forall n
      ensures !OnCycle(JobGraph(c.jobs), n)
    {
      if OnCycle(JobGraph(c.jobs), n) {
        NameCycleIsIndexCycle(c.jobs, n);
      }
    }
  }

  /** The reordered configuration is well-formed, topological and sorted by stage. */
  lemma AcceptedIsValidated(l: Limits, c: PipelineConfig, order: seq<nat>)
    requires WellFormed(l, c) && IsJobOrder(l, c, order)
    ensures forall k | 0 <= k < |order| :: order[k] < |c.jobs|
    ensures Validated(l, c.(jobs := Permuted(c.jobs, order)))
  {
    PrereqsAreValid(l, c);
    var p, stage := Prereqs(c.jobs), StageKeys(c);
    GreedyIsTopological(p, stage, order);
    var v := c.(jobs := Permuted(c.jobs, order));
    PermutedIsWellFormed(l, c, order);
    forall i, n | 0 <= i < |v.jobs| && n in v.jobs[i].needs
      ensures n in Names(v.jobs)[..i]
    {
      PermutedNeedIsEarlier(l, c, order, i, n);
    }
    forall i, j | 0 <= i <= j < |v.jobs|
      ensures StageIndex(v, v.jobs[i]) <= StageIndex(v, v.jobs[j])
    {
      GreedyIsStageSorted(p, stage, order, i, j);
    }
  }

  lemma PermutedNamesDiffer(c: PipelineConfig, order: seq<nat>)
    requires NoDup(Names(c.jobs)) && NoDup(order) && forall k | 0 <= k < |order| :: order[k] < |c.jobs|
    ensures NoDup(Names(Permuted(c.jobs, order)))
  {
    var names := Names(Permuted(c.jobs, order));
    forall a, b | 0 <= a < b < |names|
      ensures names[a] != names[b]
    {
      assert names[a] == Names(c.jobs)[order[a]] && names[b] == Names(c.jobs)[order[b]];
    }
  }

  lemma PermutedIsWellFormed(l: Limits, c: PipelineConfig, order: seq<nat>)
    requires WellFormed(l, c) && KnownNeeds(c.jobs) && IsTopological(Prereqs(c.jobs), order)
    requires |order| == |c.jobs| && forall k | 0 <= k < |order| :: order[k] < |c.jobs|
    ensures WellFormed(l, c.(jobs := Permuted(c.jobs, order)))
  {
    var v := c.(jobs := Permuted(c.jobs, order));
    PermutedNamesDiffer(c, order);
    forall i | 0 <= i < |v.jobs|
      ensures JobOk(l, v, v.jobs[i])
    {
      assert JobOk(l, c, c.jobs[order[i]]);
    }
    forall i | 0 <= i < |v.jobs|
      ensures NeedsOk(l, v, v.jobs[i])
    {
      PermutedNeedsOk(l, c, order, i);
    }
  }

  lemma PermutedNeedIsEarlier(l: Limits, c: PipelineConfig, order: seq<nat>, i: nat, n: string)
    requires Linkable(l, c) && KnownNeeds(c.jobs) && IsTopological(Prereqs(c.jobs), order)
    requires i < |order| && n in c.jobs[order[i]].needs
    ensures n in Names(Permuted(c.jobs, order))[..i]
  {
    var x := order[i];
    var k :| 0 <= k < |c.jobs[x].needs| && c.jobs[x].needs[k] == n;
    var y := PrereqsOf(c.jobs, x)[k];
    assert y in Prereqs(c.jobs)[x];
    assert y in order[..i];
    var m :| 0 <= m < i && order[m] == y;
    assert Names(Permuted(c.jobs, order))[m] == c.jobs[y].name == n;
  }

  lemma PermutedNeedsOk(l: Limits, c: PipelineConfig, order: seq<nat>, i: nat)
    requires Linkable(l, c) && KnownNeeds(c.jobs) && IsTopological(Prereqs(c.jobs), order)
    requires i < |order| && NoDup(Names(Permuted(c.jobs, order)))
    ensures NeedsOk(l, c.(jobs := Permuted(c.jobs, order)), c.jobs[order[i]])
  {
    var v := c.(jobs := Permuted(c.jobs, order));
    var job := c.jobs[order[i]];
    assert NeedsOk(l, c, job);
    forall k | 0 <= k < |job.needs|
      ensures NeedOk(v, job, job.needs[k])
    {
      PermutedNeedIsEarlier(l, c, order, i, job.needs[k]);
      assert NeedOk(c, job, job.needs[k]);
      var a, b := IndexOf(Names(v.jobs), job.needs[k]), IndexOf(Names(c.jobs), job.needs[k]);
      assert c.jobs[order[a]].name == c.jobs[b].name;
      assert order[a] == b;
    }
  }

  // ---------- validating twice ----------

  lemma ValidatedNeedsPointBack(l: Limits, v: PipelineConfig, x: nat, y: nat)
    requires Validated(l, v) && KnownNeeds(v.jobs) && x < |v.jobs| && y in Prereqs(v.jobs)[x]
    ensures y < x
  {
    var p := PrereqsOf(v.jobs, x);
    var k :| 0 <= k < |p| && p[k] == y;
    var n := v.jobs[x].needs[k];
    assert n in Names(v.jobs)[..x];
    var m :| 0 <= m < x && Names(v.jobs)[m] == n;
    assert Names(v.jobs)[y] == n;
  }

  lemma ValidatedIsAcyclic(l: Limits, v: PipelineConfig)
    requires Validated(l, v)
    ensures Acyclic(JobGraph(v.jobs))
  {
    PrereqsAreValid(l, v);
    var p := Prereqs(v.jobs);
    var order := seq(|p|, i => i);
    forall k, y | 0 <= k < |order| && y in p[order[k]]
      ensures y in order[..k]
    {
      ValidatedNeedsPointBack(l, v, k, y);
      assert order[..k][y] == y;
    }
    TopologicalIsAcyclic(p, order);
    forall n
      ensures !OnCycle(JobGraph(v.jobs), n)
    {
      if OnCycle(JobGraph(v.jobs), n) {
        NameCycleIsIndexCycle(v.jobs, n);
      }
    }
  }

  /** A validated configuration is accepted as it is: a second validation changes nothing. */
  lemma ValidatedIsFixed(l: Limits, v: PipelineConfig, r: Result<PipelineConfig, ConfigError>)
    requires Validated(l, v) && IsValidation(l, v, r)
    ensures r == Ok(v)
  {
    ValidatedIsAcyclic(l, v);
    if r.Err? {
      NothingToReport(l, v, r.error);
    }
    var order :| Reorders(l, v, order, r.value);
    ValidatedOrderIsIdentity(l, v, order);
    assert r.value.jobs == v.jobs;
  }

  lemma ValidatedOrderIsIdentity(l: Limits, v: PipelineConfig, order: seq<nat>)
    requires Validated(l, v) && IsJobOrder(l, v, order)
    ensures order == seq(|v.jobs|, i => i)
  {
    PrereqsAreValid(l, v);
    var p := Prereqs(v.jobs);
    forall x, y | 0 <= x < |p| && y in p[x]
      ensures y < x
    {
      ValidatedNeedsPointBack(l, v, x, y);
    }
    SortedInputIsEmittedInOrder(p, StageKeys(v), order);
  }

  /** Validation is idempotent on every configuration it accepts. */
  lemma ValidationIsIdempotent(l: Limits, c: PipelineConfig, v: PipelineConfig, r: Result<PipelineConfig, ConfigError>)
    requires IsValidation(l, c, Ok(v)) && IsValidation(l, v, r)
    ensures r == Ok(v)
  {
    var order :| Reorders(l, c, order, v);
    AcceptedIsValidated(l, c, order);
    ValidatedIsFixed(l, v, r);
  }

  /** Of all permutations with needs first, validation returns the least by (stage, original index). */
  lemma ValidationIsLeast(l: Limits, c: PipelineConfig, v: PipelineConfig, other: seq<nat>) returns (order: seq<nat>)
    requires IsValidation(l, c, Ok(v))
    requires KnownNeeds(c.jobs) && IsTopological(Prereqs(c.jobs), other)
    ensures |order| == |c.jobs| && NoDup(order) && forall k | 0 <= k < |order| :: order[k] < |c.jobs|
    ensures v == c.(jobs := Permuted(c.jobs, order))
    ensures LexPrecedes(StageKeys(c), order, other)
  {
    order :| Reorders(l, c, order, v);
    GreedyInRange(Prereqs(c.jobs), StageKeys(c), order);
    GreedyIsLeast(Prereqs(c.jobs), StageKeys(c), order, other);
  }
}
