/**
 * The editor's own graph checks: cycle test for offered needs and columns of the overview (web/app.js,
 * web/ci-visual.js).
 */
module EditorGraph {
  import opened Graph
  import opened Topo
  import opened Config
  import opened PipelineFile

  // ---------- would a need close a cycle ----------

  /** The first job of that name, as `find` returns it. */
  function NeedsOf(jobs: seq<JobConfig>, name: string): seq<string> {
    if name in Names(jobs) then jobs[IndexOf(Names(jobs), name)].needs else []
  }

  lemma NeedsAreEdges(jobs: seq<JobConfig>, x: string, y: string)
    ensures Edge(JobGraph(jobs), x, y) <==> y in NeedsOf(jobs, x)
  {
  }

  ghost predicate AllReached(g: NeedsGraph<string>, from: string, names: seq<string>) {
    forall k {:trigger names[k]} | 0 <= k < |names| :: Reaches(g, from, names[k])
  }

  /** The needs of what was visited are visited or still to be looked at. */
  ghost predicate Frontier(g: NeedsGraph<string>, visited: set<string>, pending: seq<string>) {
    forall x, y {:trigger Edge(g, x, y)} | x in visited && Edge(g, x, y) :: y in visited || y in pending
  }

  ghost function Universe(jobs: seq<JobConfig>, from: string): (u: set<string>)
    ensures from in u
    ensures forall x, y | y in NeedsOf(jobs, x) :: y in u
  {
    AllNeeds(jobs, |jobs|) + {from}
  }

  ghost function SetOf(names: seq<string>): (u: set<string>)
    ensures forall y :: y in u <==> y in names
  {
    if names == [] then {} else {names[0]} + SetOf(names[1..])
  }

  ghost function AllNeeds(jobs: seq<JobConfig>, n: nat): (u: set<string>)
    requires n <= |jobs|
    ensures forall k, y | 0 <= k < n && y in jobs[k].needs :: y in u
  {
    if n == 0 then {} else AllNeeds(jobs, n - 1) + SetOf(jobs[n-1].needs)
  }

  lemma EdgeKeepsReached(g: NeedsGraph<string>, from: string, x: string, needs: seq<string>)
    requires Reaches(g, from, x) && forall y | y in needs :: Edge(g, x, y)
    ensures AllReached(g, from, needs)
  {
    forall k | 0 <= k < |needs|
      ensures Reaches(g, from, needs[k])
    {
      ReachesStep(g, x, needs[k]);
      ReachesTransitive(g, from, x, needs[k]);
    }
  }

  lemma SmallerRest(u: set<string>, visited: set<string>, name: string)
    requires name in u && name !in visited
    ensures |u - (visited + {name})| < |u - visited|
  {
    assert u - visited == (u - (visited + {name})) + {name};
  }

  lemma ClosedMeansUnreached(g: NeedsGraph<string>, visited: set<string>, from: string, target: string)
    requires Frontier(g, visited, []) && from in visited && target !in visited
    ensures !Reaches(g, from, target)
  {
    if Reaches(g, from, target) {
      var p :| WalkFromTo(g, p, from, target);
      ClosedSetKeepsWalk(g, visited, p, |p| - 1);
    }
  }

  lemma VisitKeepsFrontier(jobs: seq<JobConfig>, visited: set<string>, rest: seq<string>, name: string)
    requires Frontier(JobGraph(jobs), visited, rest + [name])
    ensures Frontier(JobGraph(jobs), visited + {name}, rest + NeedsOf(jobs, name))
    ensures forall y | y in NeedsOf(jobs, name) :: Edge(JobGraph(jobs), name, y)
  {
    var g := JobGraph(jobs);
    forall x, y | x in visited + {name} && Edge(g, x, y)
      ensures y in visited + {name} || y in rest + NeedsOf(jobs, name)
    {
      NeedsAreEdges(jobs, x, y);
      if x in visited {
        assert y in visited || y in rest + [name];
      }
    }
  }

  /** The search for `target` so far: what is pending is reached, what was visited is not the target. */
  ghost predicate Searching(jobs: seq<JobConfig>, from: string, target: string, visited: set<string>,
                            pending: seq<string>)
  {
    && AllReached(JobGraph(jobs), from, pending) && Frontier(JobGraph(jobs), visited, pending)
    && target !in visited && (from in visited || from in pending)
    && forall k | 0 <= k < |pending| :: pending[k] in Universe(jobs, from)
  }

  lemma SearchStarts(jobs: seq<JobConfig>, from: string, target: string)
    ensures Searching(jobs, from, target, {}, [from])
  {
    assert WalkFromTo(JobGraph(jobs), [from], from, from);
  }

  lemma Visit(jobs: seq<JobConfig>, from: string, target: string, visited: set<string>, rest: seq<string>, name: string)
    requires Searching(jobs, from, target, visited, rest + [name]) && name != target
    ensures Searching(jobs, from, target, visited + {name}, rest + NeedsOf(jobs, name))
    ensures name in Universe(jobs, from)
  {
    var pending := rest + [name];
    assert pending[|rest|] == name;
    assert Reaches(JobGraph(jobs), from, pending[|rest|]);
    VisitKeepsFrontier(jobs, visited, rest, name);
    EdgeKeepsReached(JobGraph(jobs), from, name, NeedsOf(jobs, name));
    PendingGrows(jobs, from, visited, rest, name);
    assert from in visited + {name} || from in rest + NeedsOf(jobs, name) by {
      assert from in pending ==> from in rest || from == name;
    }
  }

  lemma PendingGrows(jobs: seq<JobConfig>, from: string, visited: set<string>, rest: seq<string>, name: string)
    requires AllReached(JobGraph(jobs), from, rest + [name]) && AllReached(JobGraph(jobs), from, NeedsOf(jobs, name))
    requires forall k | 0 <= k < |rest + [name]| :: (rest + [name])[k] in Universe(jobs, from)
    ensures AllReached(JobGraph(jobs), from, rest + NeedsOf(jobs, name))
    ensures forall k | 0 <= k < |rest + NeedsOf(jobs, name)| :: (rest + NeedsOf(jobs, name))[k] in Universe(jobs, from)
  {
    forall k | 0 <= k < |rest + NeedsOf(jobs, name)|
      ensures Reaches(JobGraph(jobs), from, (rest + NeedsOf(jobs, name))[k])
      ensures (rest + NeedsOf(jobs, name))[k] in Universe(jobs, from)
    {
      if k < |rest| {
        assert (rest + [name])[k] == rest[k];
      }
    }
  }

  lemma Skip(jobs: seq<JobConfig>, from: string, target: string, visited: set<string>, rest: seq<string>, name: string)
    requires Searching(jobs, from, target, visited, rest + [name]) && name in visited
    ensures Searching(jobs, from, target, visited, rest)
  {
    forall k | 0 <= k < |rest|
      ensures Reaches(JobGraph(jobs), from, rest[k]) && rest[k] in Universe(jobs, from)
    {
      assert (rest + [name])[k] == rest[k];
    }
    forall x, y | x in visited && Edge(JobGraph(jobs), x, y)
      ensures y in visited || y in rest
    {
      assert y in visited || y in rest + [name];
    }
    assert from in rest + [name] ==> from in rest || from == name;
  }

  lemma Found(jobs: seq<JobConfig>, from: string, target: string, visited: set<string>, rest: seq<string>)
    requires Searching(jobs, from, target, visited, rest + [target])
    ensures Reaches(JobGraph(jobs), from, target)
  {
    assert (rest + [target])[|rest|] == target;
  }

  /** `wouldCreateCiDependencyCycle`: does the proposed dependency already lead back to the job? */
  method WouldCreateCycle(jobs: seq<JobConfig>, jobName: string, dependency: string) returns (cycle: bool)
    ensures cycle <==> Reaches(JobGraph(jobs), dependency, jobName)
  {
    ghost var u := Universe(jobs, dependency);
    var pending: seq<string>, visited: set<string> := [dependency], {};
    SearchStarts(jobs, dependency, jobName);
    while pending != []
      invariant Searching(jobs, dependency, jobName, visited, pending)
      decreases |u - visited|, |pending|
    {
      var name, rest := pending[|pending|-1], pending[..|pending|-1];
      assert pending == rest + [name];
      if name == jobName {
        Found(jobs, dependency, jobName, visited, rest);
        return true;
      }
      if name in visited {
        Skip(jobs, dependency, jobName, visited, rest, name);
        pending := rest;
        continue;
      }
      Visit(jobs, dependency, jobName, visited, rest, name);
      SmallerRest(u, visited, name);
      visited := visited + {name};
      pending := rest + NeedsOf(jobs, name);
    }
    ClosedMeansUnreached(JobGraph(jobs), visited, dependency, jobName);
    return false;
  }

  /** `wouldCreateCiPipelineDependencyCycle`: the same loop over the pipelines of a file. */
  method WouldCreatePipelineCycle(pipelines: seq<NamedPipeline>, name: string, dependency: string) returns (cycle: bool)
    ensures cycle <==> Reaches(JobGraph(NeedsView(pipelines).jobs), dependency, name)
  {
    cycle := WouldCreateCycle(NeedsView(pipelines).jobs, name, dependency);
  }

  // ---------- an offered need is accepted by the backend ----------

  function WithNeed(c: PipelineConfig, i: nat, need: string): PipelineConfig
    requires i < |c.jobs|
  {
    c.(jobs := c.jobs[i := c.jobs[i].(needs := c.jobs[i].needs + [need])])
  }

  /** What the inspector demands of a candidate before the cycle test; it is not selected yet. */
  predicate IsCandidate(c: PipelineConfig, i: nat, k: nat)
    requires i < |c.jobs| && k < |c.jobs| && forall m | 0 <= m < |c.jobs| :: c.jobs[m].stage in c.stages
  {
    k != i && StageIndex(c, c.jobs[k]) <= StageIndex(c, c.jobs[i]) && c.jobs[k].name !in c.jobs[i].needs
  }

  lemma WithNeedGraph(c: PipelineConfig, i: nat, need: string)
    requires i < |c.jobs| && NoDup(Names(c.jobs))
    ensures Names(WithNeed(c, i, need).jobs) == Names(c.jobs)
    ensures var g, n := JobGraph(c.jobs), c.jobs[i].name;
            n in g && JobGraph(WithNeed(c, i, need).jobs) == g[n := g[n] + [need]]
  {
    var d := WithNeed(c, i, need);
    assert Names(d.jobs) == Names(c.jobs);
    NoDupIndex(Names(c.jobs), i);
    forall n | n in Names(c.jobs)
      ensures JobGraph(d.jobs)[n] == if n == c.jobs[i].name then c.jobs[i].needs + [need] else JobGraph(c.jobs)[n]
    {
      assert IndexOf(Names(c.jobs), n) == i <==> n == c.jobs[i].name;
    }
  }

  lemma NeedStaysOk(c: PipelineConfig, d: PipelineConfig, job: JobConfig, need: string)
    requires (forall q | 0 <= q < |c.jobs| :: c.jobs[q].stage in c.stages) && job.stage in c.stages
    requires d.stages == c.stages && |d.jobs| == |c.jobs| && forall q | 0 <= q < |c.jobs| ::
               d.jobs[q].name == c.jobs[q].name && d.jobs[q].stage == c.jobs[q].stage
    requires NeedOk(c, job, need)
    ensures (forall q | 0 <= q < |d.jobs| :: d.jobs[q].stage in d.stages) && NeedOk(d, job, need)
  {
    assert Names(d.jobs) == Names(c.jobs);
  }

  lemma NoDupSnoc(s: seq<string>, x: string)
    requires NoDup(s) && x !in s
    ensures NoDup(s + [x])
  {
  }

  /** Each need of the changed definition was proper before, or is the candidate. */
  lemma EachNeedWasOk(l: Limits, c: PipelineConfig, i: nat, k: nat, m: nat, q: nat)
    requires Linkable(l, c) && i < |c.jobs| && k < |c.jobs| && m < |c.jobs| && IsCandidate(c, i, k)
    requires q < |WithNeed(c, i, c.jobs[k].name).jobs[m].needs|
    ensures NeedOk(c, c.jobs[m], WithNeed(c, i, c.jobs[k].name).jobs[m].needs[q])
  {
    assert NeedsOk(l, c, c.jobs[m]);
    if q < |c.jobs[m].needs| {
      assert NeedOk(c, c.jobs[m], c.jobs[m].needs[q]);
    } else {
      NoDupIndex(Names(c.jobs), k);
    }
  }

  lemma NeedsStayOk(l: Limits, c: PipelineConfig, i: nat, k: nat, m: nat)
    requires Linkable(l, c) && i < |c.jobs| && k < |c.jobs| && m < |c.jobs|
    requires IsCandidate(c, i, k) && |c.jobs[i].needs| < l.needs
    ensures var d := WithNeed(c, i, c.jobs[k].name);
            (forall q | 0 <= q < |d.jobs| :: d.jobs[q].stage in d.stages) && NeedsOk(l, d, d.jobs[m])
  {
    var d := WithNeed(c, i, c.jobs[k].name);
    assert NeedsOk(l, c, c.jobs[m]);
    if m == i {
      assert Names(c.jobs)[i] != Names(c.jobs)[k];
      NoDupSnoc(c.jobs[i].needs, c.jobs[k].name);
    }
    forall q | 0 <= q < |d.jobs[m].needs|
      ensures NeedOk(d, d.jobs[m], d.jobs[m].needs[q])
    {
      EachNeedWasOk(l, c, i, k, m, q);
      NeedStaysOk(c, d, c.jobs[m], d.jobs[m].needs[q]);
    }
  }

  lemma WithNeedIsWellFormed(l: Limits, c: PipelineConfig, i: nat, k: nat)
    requires WellFormed(l, c) && i < |c.jobs| && k < |c.jobs| && IsCandidate(c, i, k) && |c.jobs[i].needs| < l.needs
    ensures WellFormed(l, WithNeed(c, i, c.jobs[k].name))
  {
    var d := WithNeed(c, i, c.jobs[k].name);
    WithNeedGraph(c, i, c.jobs[k].name);
    NoDupIndex(Names(c.jobs), k);
    assert Names(c.jobs)[i] != Names(c.jobs)[k];
    forall m | 0 <= m < |d.jobs|
      ensures JobOk(l, d, d.jobs[m])
    {
      assert JobOk(l, c, c.jobs[m]);
    }
    forall m | 0 <= m < |d.jobs|
      ensures NeedsOk(l, d, d.jobs[m])
    {
      NeedsStayOk(l, c, i, k, m);
    }
  }

  /** One need more than allowed is refused by the backend, whatever it is. */
  lemma NeedBeyondLimit(l: Limits, c: PipelineConfig, i: nat, need: string)
    requires i < |c.jobs| && |c.jobs[i].needs| >= l.needs
    requires forall q | 0 <= q < |c.jobs| :: c.jobs[q].stage in c.stages
    ensures !Linkable(l, WithNeed(c, i, need)) && !WellFormed(l, WithNeed(c, i, need))
  {
    var d := WithNeed(c, i, need);
    assert |d.jobs[i].needs| > l.needs && d.jobs[i].stage in d.stages;
    assert !NeedsOk(l, d, d.jobs[i]);
  }

  /** The editor offers a need exactly when the backend accepts the definition with it, as long as there is room. */
  lemma OfferedExactlyWhenAccepted(l: Limits, c: PipelineConfig, i: nat, k: nat)
    requires WellFormed(l, c) && Acyclic(JobGraph(c.jobs))
    requires i < |c.jobs| && k < |c.jobs| && IsCandidate(c, i, k)
    ensures Acceptable(l, WithNeed(c, i, c.jobs[k].name))
       <==> |c.jobs[i].needs| < l.needs && !Reaches(JobGraph(c.jobs), c.jobs[k].name, c.jobs[i].name)
  {
    if |c.jobs[i].needs| < l.needs {
      WithNeedIsWellFormed(l, c, i, k);
      WithNeedGraph(c, i, c.jobs[k].name);
      AddedNeedKeepsAcyclic(JobGraph(c.jobs), c.jobs[i].name, c.jobs[k].name);
    } else {
      NeedBeyondLimit(l, c, i, c.jobs[k].name);
    }
  }

  // ---------- the same for pipelines of a file ----------

  function WithPipelineNeed(f: DefinitionFile, i: nat, need: string): DefinitionFile
    requires i < |f.pipelines|
  {
    f.(pipelines := f.pipelines[i := f.pipelines[i].(needs := f.pipelines[i].needs + [need])])
  }

  lemma NeedsViewOfMore(f: DefinitionFile, i: nat, need: string)
    requires i < |f.pipelines|
    ensures NeedsView(WithPipelineNeed(f, i, need).pipelines) == WithNeed(NeedsView(f.pipelines), i, need)
    ensures PipelineNames(WithPipelineNeed(f, i, need).pipelines) == PipelineNames(f.pipelines)
    ensures Names(NeedsView(f.pipelines).jobs) == PipelineNames(f.pipelines)
  {
    assert NeedsView(WithPipelineNeed(f, i, need).pipelines).jobs == WithNeed(NeedsView(f.pipelines), i, need).jobs;
  }

  /** An offered need keeps everything the linking loop demands. */
  lemma WithNeedIsLinkable(l: Limits, c: PipelineConfig, i: nat, k: nat)
    requires Linkable(l, c) && i < |c.jobs| && k < |c.jobs| && IsCandidate(c, i, k) && |c.jobs[i].needs| < l.needs
    ensures Linkable(l, WithNeed(c, i, c.jobs[k].name))
  {
    var d := WithNeed(c, i, c.jobs[k].name);
    WithNeedGraph(c, i, c.jobs[k].name);
    forall m | 0 <= m < |d.jobs|
      ensures d.jobs[m].stage in d.stages
    {
      assert c.jobs[m].stage in c.stages;
    }
    forall m | 0 <= m < |d.jobs|
      ensures NeedsOk(l, d, d.jobs[m])
    {
      NeedsStayOk(l, c, i, k, m);
    }
  }

  /** What the inspector demands of a candidate pipeline before the cycle test; it is not selected yet. */
  predicate IsPipelineCandidate(f: DefinitionFile, i: nat, k: nat) {
    i < |f.pipelines| && k < |f.pipelines| && k != i && f.pipelines[k].name !in f.pipelines[i].needs
  }

  lemma NeedsOfMoreAreOk(l: Limits, f: DefinitionFile, i: nat, k: nat)
    requires PipelineNeedsOk(l, f.pipelines) && IsPipelineCandidate(f, i, k)
    ensures PipelineNeedsOk(l, WithPipelineNeed(f, i, f.pipelines[k].name).pipelines)
       <==> |f.pipelines[i].needs| < l.pipelineNeeds
            && !Reaches(JobGraph(NeedsView(f.pipelines).jobs), f.pipelines[k].name, f.pipelines[i].name)
  {
    var c, need := NeedsView(f.pipelines), f.pipelines[k].name;
    NeedsViewOfMore(f, i, need);
    if |c.jobs[i].needs| < l.pipelineNeeds {
      assert IsCandidate(c, i, k);
      WithNeedIsLinkable(NeedsLimits(l), c, i, k);
      WithNeedGraph(c, i, need);
      AddedNeedKeepsAcyclic(JobGraph(c.jobs), c.jobs[i].name, need);
    } else {
      NeedBeyondLimit(NeedsLimits(l), c, i, need);
    }
  }

  /** And for pipelines: offered exactly when the file with that need is accepted, as long as there is room. */
  lemma PipelineOfferedExactlyWhenAccepted(l: Limits, f: DefinitionFile, i: nat, k: nat)
    requires FileOk(l, f) && IsPipelineCandidate(f, i, k)
    ensures FileOk(l, WithPipelineNeed(f, i, f.pipelines[k].name))
       <==> |f.pipelines[i].needs| < l.pipelineNeeds
            && !Reaches(JobGraph(NeedsView(f.pipelines).jobs), f.pipelines[k].name, f.pipelines[i].name)
  {
    var g := WithPipelineNeed(f, i, f.pipelines[k].name);
    NeedsViewOfMore(f, i, f.pipelines[k].name);
    NeedsOfMoreAreOk(l, f, i, k);
    forall q | 0 <= q < |g.pipelines|
      ensures PipelineOk(l, g.pipelines[q])
    {
      assert PipelineOk(l, f.pipelines[q]);
    }
  }

  /** There always is room when the limit on needs is no smaller than the one on pipelines, as in the sources. */
  lemma PipelineNeedsHaveRoom(l: Limits, f: DefinitionFile, i: nat, k: nat)
    requires FileOk(l, f) && IsPipelineCandidate(f, i, k) && l.pipelines <= l.pipelineNeeds
    ensures |f.pipelines[i].needs| < l.pipelineNeeds
  {
    var c := NeedsView(f.pipelines);
    var names, needs := Names(c.jobs), c.jobs[i].needs;
    assert NeedsOk(NeedsLimits(l), c, c.jobs[i]);
    var others := set n | n in names && n != names[k];
    forall m | 0 <= m < |needs|
      ensures needs[m] in others
    {
      assert NeedOk(c, c.jobs[i], needs[m]);
    }
    DistinctFitsInSet(needs, others);
    OthersAreFewer(names, k);
  }

  lemma OthersAreFewer(names: seq<string>, k: nat)
    requires NoDup(names) && k < |names|
    ensures |set n | n in names && n != names[k]| < |names|
  {
    var others := set n | n in names && n != names[k];
    SetIsNoLarger(names);
    assert (set n | n in names) == others + {names[k]};
  }

  lemma {:induction false} SetIsNoLarger(names: seq<string>)
    ensures |set n | n in names| <= |names|
  {
    if names != [] {
      SetIsNoLarger(names[1..]);
      assert (set n | n in names) == {names[0]} + set n | n in names[1..];
    } else {
      assert (set n | n in names) == {};
    }
  }

  // ---------- columns of the overview ----------

  datatype Entry = Entry(name: string, needs: seq<string>)

  predicate UniqueNames(entries: seq<Entry>) {
    forall i, j | 0 <= i < j < |entries| :: entries[i].name != entries[j].name
  }

  predicate NeedsEntry(entries: seq<Entry>, i: nat, y: nat) {
    i < |entries| && y < |entries| && entries[y].name in entries[i].needs
  }

  function NeededEntries(entries: seq<Entry>, i: nat, n: nat): (r: seq<nat>)
    requires n <= |entries|
    ensures forall y: nat :: y in r <==> y < n && NeedsEntry(entries, i, y)
  {
    if n == 0 then []
    else if NeedsEntry(entries, i, n - 1) then NeededEntries(entries, i, n - 1) + [n - 1]
    else NeededEntries(entries, i, n - 1)
  }

  /** Needs that name a pipeline of the file; others are ignored. */
  ghost function PresentNeeds(entries: seq<Entry>): (g: NeedsGraph<nat>)
    ensures forall i: nat, y: nat :: Edge(g, i, y) <==> NeedsEntry(entries, i, y)
  {
    map i | i in Below(|entries|) :: NeededEntries(entries, i, |entries|)
  }

  ghost predicate HasChain(g: NeedsGraph<nat>, i: nat, d: nat) {
    exists p: seq<nat> :: IsWalk(g, p) && p[0] == i && |p| == d + 1
  }

  /** The longest chain of needs from i has d needs. */
  ghost predicate IsDepth(g: NeedsGraph<nat>, i: nat, d: nat) {
    HasChain(g, i, d) && forall p: seq<nat> {:trigger IsWalk(g, p)} | IsWalk(g, p) && p[0] == i :: |p| <= d + 1
  }

  ghost predicate LeadsToCycle(g: NeedsGraph<nat>, i: nat) {
    exists c :: Reaches(g, i, c) && OnCycle(g, c)
  }

  /** Nodes so far, each with the column it went to: needs go to earlier columns, one of them to the column before. */
  ghost predicate Ranked(g: NeedsGraph<nat>, rank: map<nat, nat>) {
    forall i | i in rank :: RankFits(g, rank, i)
  }

  ghost predicate RankFits(g: NeedsGraph<nat>, rank: map<nat, nat>, i: nat)
    requires i in rank
  {
    && (forall y {:trigger Edge(g, i, y)} | Edge(g, i, y) :: y in rank && rank[y] < rank[i])
    && (rank[i] > 0 ==> HasNeedOfRank(g, rank, i, rank[i] - 1))
  }

  ghost predicate HasNeedOfRank(g: NeedsGraph<nat>, rank: map<nat, nat>, i: nat, r: nat) {
    exists y :: Edge(g, i, y) && y in rank && rank[y] == r
  }

  lemma {:induction false} RankGivesChain(g: NeedsGraph<nat>, rank: map<nat, nat>, i: nat)
    requires Ranked(g, rank) && i in rank
    ensures HasChain(g, i, rank[i])
    decreases rank[i]
  {
    if rank[i] == 0 {
      assert IsWalk(g, [i]);
    } else {
      assert RankFits(g, rank, i);
      var y :| Edge(g, i, y) && y in rank && rank[y] == rank[i] - 1;
      RankGivesChain(g, rank, y);
      var p: seq<nat> :| IsWalk(g, p) && p[0] == y && |p| == rank[y] + 1;
      assert IsWalk(g, [i] + p);
    }
  }

  lemma RankIsDepth(g: NeedsGraph<nat>, rank: map<nat, nat>, i: nat)
    requires Ranked(g, rank) && i in rank
    ensures IsDepth(g, i, rank[i]) && !LeadsToCycle(g, i)
  {
    RankGivesChain(g, rank, i);
    RanksDecrease(g, rank);
    forall p: seq<nat> | IsWalk(g, p) && p[0] == i
      ensures |p| <= rank[i] + 1
    {
      RankBoundsWalk(g, rank, p);
    }
    forall c | Reaches(g, i, c)
      ensures !OnCycle(g, c)
    {
      RankedNodesReachNoCycle(g, rank, i, c);
    }
  }

  lemma RanksDecrease(g: NeedsGraph<nat>, rank: map<nat, nat>)
    requires Ranked(g, rank)
    ensures forall x, y | x in rank && Edge(g, x, y) :: y in rank && rank[y] < rank[x]
  {
    forall x, y | x in rank && Edge(g, x, y)
      ensures y in rank && rank[y] < rank[x]
    {
      assert RankFits(g, rank, x);
    }
  }

  // ---------- the layering loop ----------

  /** Every need is emitted or names no entry. */
  predicate IsEligible(entries: seq<Entry>, emitted: set<string>, i: int) {
    0 <= i < |entries| && forall k | 0 <= k < |entries[i].needs| ::
      entries[i].needs[k] in emitted || forall m | 0 <= m < |entries| :: entries[m].name != entries[i].needs[k]
  }

  /** The rank map, the names emitted and what remains describe the same split of the entries. */
  ghost predicate Splits(entries: seq<Entry>, rank: map<nat, nat>, emitted: set<string>, remaining: seq<nat>,
                         level: nat)
  {
    && NoDup(remaining) && (forall i | i in remaining :: i < |entries| && i !in rank)
    && (forall i: nat | i < |entries| :: i in rank || i in remaining)
    && (forall i | i in rank :: i < |entries| && rank[i] < level)
    && (forall i | 0 <= i < |entries| :: entries[i].name in emitted <==> i in rank)
  }

  lemma EligibleMeansNeedsRanked(entries: seq<Entry>, rank: map<nat, nat>, emitted: set<string>, remaining: seq<nat>,
                                 level: nat, i: nat)
    requires Splits(entries, rank, emitted, remaining, level) && i < |entries|
    ensures IsEligible(entries, emitted, i) <==> forall y {:trigger Edge(PresentNeeds(entries), i, y)} |
              Edge(PresentNeeds(entries), i, y) :: y in rank
  {
    var g := PresentNeeds(entries);
    if IsEligible(entries, emitted, i) {
      forall y: nat | Edge(g, i, y)
        ensures y in rank
      {
        assert NeedsEntry(entries, i, y);
        var k :| 0 <= k < |entries[i].needs| && entries[i].needs[k] == entries[y].name;
        assert entries[y].name in emitted;
      }
    } else {
      var k :| 0 <= k < |entries[i].needs| && entries[i].needs[k] !in emitted
            && !forall m | 0 <= m < |entries| :: entries[m].name != entries[i].needs[k];
      var m :| 0 <= m < |entries| && entries[m].name == entries[i].needs[k];
      assert NeedsEntry(entries, i, m) && m !in rank;
      assert Edge(g, i, m);
    }
  }

  /** Splits the remaining entries into the eligible ones and the others, keeping their order. */
  method SplitEligible(entries: seq<Entry>, emitted: set<string>, remaining: seq<nat>)
    returns (layer: seq<nat>, rest: seq<nat>)
    requires NoDup(remaining) && forall i | i in remaining :: i < |entries|
    ensures NoDup(layer) && NoDup(rest) && |layer| + |rest| == |remaining|
    ensures forall i :: i in layer <==> i in remaining && IsEligible(entries, emitted, i)
    ensures forall i :: i in rest <==> i in remaining && !IsEligible(entries, emitted, i)
  {
    layer, rest := [], [];
    for k := 0 to |remaining|
      invariant NoDup(layer) && NoDup(rest) && |layer| + |rest| == k
      invariant forall i :: i in layer <==> i in remaining[..k] && IsEligible(entries, emitted, i)
      invariant forall i :: i in rest <==> i in remaining[..k] && !IsEligible(entries, emitted, i)
    {
      assert remaining[..k+1] == remaining[..k] + [remaining[k]];
      assert remaining[k] !in remaining[..k];
      if IsEligible(entries, emitted, remaining[k]) {
        layer := layer + [remaining[k]];
      } else {
        rest := rest + [remaining[k]];
      }
    }
    assert remaining[..|remaining|] == remaining;
  }

  predicate NamedIn(entries: seq<Entry>, layer: seq<nat>, name: string) {
    exists k :: 0 <= k < |layer| && layer[k] < |entries| && entries[layer[k]].name == name
  }

  method NamesOf(entries: seq<Entry>, layer: seq<nat>, emitted: set<string>) returns (names: set<string>)
    requires forall i | i in layer :: i < |entries|
    ensures forall n :: n in names <==> n in emitted || NamedIn(entries, layer, n)
  {
    names := emitted;
    for j := 0 to |layer|
      invariant forall n :: n in names <==> n in emitted || NamedIn(entries, layer[..j], n)
    {
      assert layer[j] in layer;
      NamedInGrows(entries, layer, j);
      names := names + {entries[layer[j]].name};
    }
    assert layer[..|layer|] == layer;
  }

  lemma NamedInGrows(entries: seq<Entry>, layer: seq<nat>, j: nat)
    requires j < |layer| && layer[j] < |entries|
    ensures forall n :: NamedIn(entries, layer[..j+1], n) <==> NamedIn(entries, layer[..j], n)
                                                                || n == entries[layer[j]].name
  {
    forall n
      ensures NamedIn(entries, layer[..j+1], n) <==> NamedIn(entries, layer[..j], n) || n == entries[layer[j]].name
    {
      assert layer[..j+1][j] == layer[j];
      if NamedIn(entries, layer[..j], n) {
        var k :| 0 <= k < j && layer[..j][k] < |entries| && entries[layer[..j][k]].name == n;
        assert layer[..j+1][k] == layer[k];
      }
      if NamedIn(entries, layer[..j+1], n) && n != entries[layer[j]].name {
        var k :| 0 <= k < j + 1 && layer[..j+1][k] < |entries| && entries[layer[..j+1][k]].name == n;
        assert layer[..j][k] == layer[k];
      }
    }
  }

  ghost function RankLayer(rank: map<nat, nat>, layer: seq<nat>, level: nat): (r: map<nat, nat>)
    ensures forall i :: i in r <==> i in rank || i in layer
    ensures forall i | i in r :: r[i] == if i in layer then level else rank[i]
  {
    rank + map i | i in layer :: level
  }

  /** Each column but the last has what the columns before it did not make eligible. */
  ghost predicate JustMissed(g: NeedsGraph<nat>, rank: map<nat, nat>, remaining: seq<nat>, level: nat) {
    level > 0 ==> forall i | i in remaining :: HasNeedAtLeast(g, rank, i, level - 1)
  }

  /** i was not eligible before the last column: it needs an entry of that column or a remaining one. */
  ghost predicate HasNeedAtLeast(g: NeedsGraph<nat>, rank: map<nat, nat>, i: nat, r: nat) {
    exists y :: Edge(g, i, y) && (y in rank ==> rank[y] == r)
  }

  lemma LayerKeepsRanked(entries: seq<Entry>, rank: map<nat, nat>, emitted: set<string>, remaining: seq<nat>,
                         level: nat, layer: seq<nat>)
    requires Splits(entries, rank, emitted, remaining, level)
    requires Ranked(PresentNeeds(entries), rank) && JustMissed(PresentNeeds(entries), rank, remaining, level)
    requires forall i :: i in layer <==> i in remaining && IsEligible(entries, emitted, i)
    ensures Ranked(PresentNeeds(entries), RankLayer(rank, layer, level))
  {
    var g, after := PresentNeeds(entries), RankLayer(rank, layer, level);
    forall i | i in after
      ensures RankFits(g, after, i)
    {
      if i in layer {
        EligibleMeansNeedsRanked(entries, rank, emitted, remaining, level, i);
        if level > 0 {
          assert HasNeedAtLeast(g, rank, i, level - 1);
          var y :| Edge(g, i, y) && (y in rank ==> rank[y] == level - 1);
          assert y in rank && after[y] == level - 1;
          assert HasNeedOfRank(g, after, i, level - 1);
        }
      } else {
        OldRankFits(g, rank, after, i);
      }
    }
  }

  lemma OldRankFits(g: NeedsGraph<nat>, rank: map<nat, nat>, after: map<nat, nat>, i: nat)
    requires i in rank && RankFits(g, rank, i)
    requires forall j | j in rank :: j in after && after[j] == rank[j]
    ensures RankFits(g, after, i)
  {
    if rank[i] > 0 {
      var y :| Edge(g, i, y) && y in rank && rank[y] == rank[i] - 1;
      assert HasNeedOfRank(g, after, i, after[i] - 1);
    }
  }

  lemma RestJustMissed(entries: seq<Entry>, rank: map<nat, nat>, emitted: set<string>, remaining: seq<nat>,
                       level: nat, layer: seq<nat>, rest: seq<nat>)
    requires Splits(entries, rank, emitted, remaining, level)
    requires forall i :: i in rest <==> i in remaining && !IsEligible(entries, emitted, i)
    ensures JustMissed(PresentNeeds(entries), RankLayer(rank, layer, level), rest, level + 1)
  {
    var g, after := PresentNeeds(entries), RankLayer(rank, layer, level);
    forall i | i in rest
      ensures HasNeedAtLeast(g, after, i, level)
    {
      EligibleMeansNeedsRanked(entries, rank, emitted, remaining, level, i);
      var y :| Edge(g, i, y) && y !in rank;
      assert y in after ==> after[y] == level;
    }
  }

  lemma LayerKeepsSplit(entries: seq<Entry>, rank: map<nat, nat>, emitted: set<string>, names: set<string>,
                        remaining: seq<nat>, level: nat, layer: seq<nat>, rest: seq<nat>)
    requires UniqueNames(entries) && Splits(entries, rank, emitted, remaining, level)
    requires NoDup(rest) && forall i :: i in remaining <==> i in layer || i in rest
    requires forall i | i in layer :: i !in rest
    requires forall i | i in layer :: i < |entries|
    requires forall n :: n in names <==> n in emitted || NamedIn(entries, layer, n)
    ensures Splits(entries, RankLayer(rank, layer, level), names, rest, level + 1)
  {
    forall i | 0 <= i < |entries|
      ensures entries[i].name in names <==> i in rank || i in layer
    {
      if i in layer {
        var k :| 0 <= k < |layer| && layer[k] == i;
        assert entries[layer[k]].name in names;
      }
    }
  }

  lemma NotEligibleNeedsRemaining(entries: seq<Entry>, rank: map<nat, nat>, emitted: set<string>, remaining: seq<nat>,
                                  level: nat, j: nat)
    requires Splits(entries, rank, emitted, remaining, level) && j < |entries| && !IsEligible(entries, emitted, j)
    ensures HasNeedIn(PresentNeeds(entries), Elements(remaining), j)
  {
    EligibleMeansNeedsRanked(entries, rank, emitted, remaining, level, j);
    var y: nat :| Edge(PresentNeeds(entries), j, y) && y !in rank;
    assert NeedsEntry(entries, j, y);
    assert y in Elements(remaining);
  }

  /** What remains when nothing is eligible lies on or behind a cycle. */
  lemma RemainderIsCyclic(entries: seq<Entry>, rank: map<nat, nat>, emitted: set<string>, remaining: seq<nat>,
                          level: nat, i: nat)
    requires Splits(entries, rank, emitted, remaining, level) && i in remaining
    requires forall j | j in remaining :: !IsEligible(entries, emitted, j)
    ensures LeadsToCycle(PresentNeeds(entries), i)
  {
    RemainderIsBlocked(entries, rank, emitted, remaining, level);
    CycleFrom(PresentNeeds(entries), Elements(remaining), i);
  }

  lemma RemainderIsBlocked(entries: seq<Entry>, rank: map<nat, nat>, emitted: set<string>, remaining: seq<nat>,
                           level: nat)
    requires Splits(entries, rank, emitted, remaining, level)
    requires forall j | j in remaining :: !IsEligible(entries, emitted, j)
    ensures Blocked(PresentNeeds(entries), Elements(remaining))
  {
    forall j | j in Elements(remaining)
      ensures HasNeedIn(PresentNeeds(entries), Elements(remaining), j)
    {
      assert j in remaining;
      NotEligibleNeedsRemaining(entries, rank, emitted, remaining, level, j);
    }
  }

  lemma CycleFrom(g: NeedsGraph<nat>, s: set<nat>, i: nat)
    requires Blocked(g, s) && i in s
    ensures LeadsToCycle(g, i)
  {
    var c := BlockedReachesCycle(g, s, i);
  }

  /** Column k holds exactly the ranked entries of rank k. */
  ghost predicate ColumnsShow(columns: seq<seq<nat>>, rank: map<nat, nat>) {
    forall k | 0 <= k < |columns| ::
      columns[k] != [] && NoDup(columns[k])
      && forall i :: i in columns[k] <==> i in rank && rank[i] == k
  }

  /** What the reader sees: numbered columns by longest chain, and at most one cyclic column at the end. */
  ghost predicate IsOverview(entries: seq<Entry>, columns: seq<seq<nat>>, cyclic: seq<nat>) {
    && (forall k, i {:trigger i in columns[k]} | 0 <= k < |columns| && i in columns[k] ::
          i < |entries| && IsDepth(PresentNeeds(entries), i, k) && !LeadsToCycle(PresentNeeds(entries), i))
    && (forall i | i in cyclic :: i < |entries| && LeadsToCycle(PresentNeeds(entries), i))
    && (forall i: nat | i < |entries| :: i in cyclic || exists k :: 0 <= k < |columns| && i in columns[k])
  }

  lemma RankedIsOverview(entries: seq<Entry>, rank: map<nat, nat>, emitted: set<string>, remaining: seq<nat>,
                         columns: seq<seq<nat>>)
    requires Splits(entries, rank, emitted, remaining, |columns|) && Ranked(PresentNeeds(entries), rank)
    requires ColumnsShow(columns, rank) && forall j | j in remaining :: !IsEligible(entries, emitted, j)
    ensures IsOverview(entries, columns, remaining)
  {
    forall k, i | 0 <= k < |columns| && i in columns[k]
      ensures i < |entries| && IsDepth(PresentNeeds(entries), i, k) && !LeadsToCycle(PresentNeeds(entries), i)
    {
      RankIsDepth(PresentNeeds(entries), rank, i);
    }
    forall i | i in remaining
      ensures LeadsToCycle(PresentNeeds(entries), i)
    {
      RemainderIsCyclic(entries, rank, emitted, remaining, |columns|, i);
    }
    forall i: nat | i < |entries| && i !in remaining
      ensures exists k :: 0 <= k < |columns| && i in columns[k]
    {
      assert i in columns[rank[i]];
    }
  }

  ghost predicate Layering(entries: seq<Entry>, rank: map<nat, nat>, emitted: set<string>, remaining: seq<nat>,
                           columns: seq<seq<nat>>)
  {
    && Splits(entries, rank, emitted, remaining, |columns|) && ColumnsShow(columns, rank)
    && Ranked(PresentNeeds(entries), rank) && JustMissed(PresentNeeds(entries), rank, remaining, |columns|)
  }

  lemma LayerKeepsColumns(columns: seq<seq<nat>>, rank: map<nat, nat>, layer: seq<nat>)
    requires ColumnsShow(columns, rank) && NoDup(layer) && layer != []
    requires forall i | i in rank :: rank[i] < |columns| && i !in layer
    ensures ColumnsShow(columns + [layer], RankLayer(rank, layer, |columns|))
  {
  }

  lemma LayerStep(entries: seq<Entry>, rank: map<nat, nat>, emitted: set<string>, remaining: seq<nat>,
                  columns: seq<seq<nat>>, layer: seq<nat>, rest: seq<nat>, names: set<string>)
    requires UniqueNames(entries) && Layering(entries, rank, emitted, remaining, columns)
    requires NoDup(layer) && NoDup(rest) && layer != []
    requires forall i :: i in layer <==> i in remaining && IsEligible(entries, emitted, i)
    requires forall i :: i in rest <==> i in remaining && !IsEligible(entries, emitted, i)
    requires forall n :: n in names <==> n in emitted || NamedIn(entries, layer, n)
    ensures Layering(entries, RankLayer(rank, layer, |columns|), names, rest, columns + [layer])
  {
    LayerKeepsRanked(entries, rank, emitted, remaining, |columns|, layer);
    RestJustMissed(entries, rank, emitted, remaining, |columns|, layer, rest);
    LayerKeepsSplit(entries, rank, emitted, names, remaining, |columns|, layer, rest);
    LayerKeepsColumns(columns, rank, layer);
  }

  /** The layering loop of `renderCiOverview`; it ends for every list of entries. */
  method Layers(entries: seq<Entry>) returns (numbered: seq<seq<nat>>, cyclic: seq<nat>)
    ensures UniqueNames(entries) ==> IsOverview(entries, numbered, cyclic)
    ensures forall k | 0 <= k < |numbered| :: numbered[k] != []
  {
    var remaining: seq<nat> := seq(|entries|, i => i);
    var emitted: set<string> := {};
    ghost var rank: map<nat, nat> := map[];
    numbered, cyclic := [], [];
    forall i: nat | i < |entries|
      ensures i in remaining
    {
      assert remaining[i] == i;
    }
    while remaining != []
      invariant NoDup(remaining) && forall i | i in remaining :: i < |entries|
      invariant UniqueNames(entries) ==> Layering(entries, rank, emitted, remaining, numbered)
      invariant forall k | 0 <= k < |numbered| :: numbered[k] != []
      decreases |remaining|
    {
      var layer, rest := SplitEligible(entries, emitted, remaining);
      if layer == [] {
        if UniqueNames(entries) {
          RankedIsOverview(entries, rank, emitted, remaining, numbered);
        }
        cyclic := remaining;
        return;
      }
      var names := NamesOf(entries, layer, emitted);
      if UniqueNames(entries) {
        LayerStep(entries, rank, emitted, remaining, numbered, layer, rest, names);
      }
      rank := RankLayer(rank, layer, |numbered|);
      numbered := numbered + [layer];
      emitted, remaining := names, rest;
    }
    if UniqueNames(entries) {
      RankedIsOverview(entries, rank, emitted, remaining, numbered);
    }
  }
}
