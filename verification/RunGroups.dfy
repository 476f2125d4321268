/** Dependencies inside a run group: gating, failure propagation and progress of claims. */
module RunGroups {
  import opened Wrappers
  import opened Config
  import opened Topo
  import opened Queue
  import opened QueueRuns
  import G = Graph

  // ---------- groups ----------

  /** Row i waits for row y: same origin, and y carries a name that i needs. */
  predicate Needs(rows: seq<Pipeline>, i: nat, y: nat) {
    && i < |rows| && y < |rows| && rows[i].origin == rows[y].origin
    && rows[y].name.Some? && rows[y].name.value in rows[i].needs
  }

  /** Each name is present once in the group; the unique index on run groups guarantees it. */
  predicate NamesOnce(rows: seq<Pipeline>, o: Origin) {
    forall i, j | 0 <= i < j < |rows| && rows[i].origin == o && rows[j].origin == o && rows[i].name.Some? ::
      rows[i].name != rows[j].name
  }

  /** Nothing is added to the group any more. */
  predicate Sealed(steps: seq<Step>, o: Origin) {
    forall k | 0 <= k < |steps| && steps[k].SubmitStep? :: steps[k].submission.origin != o
  }

  function NeededRows(rows: seq<Pipeline>, i: nat, n: nat): (r: seq<nat>)
    requires n <= |rows|
    ensures forall y: nat :: y in r <==> y < n && Needs(rows, i, y)
  {
    if n == 0 then []
    else if Needs(rows, i, n - 1) then NeededRows(rows, i, n - 1) + [n - 1]
    else NeededRows(rows, i, n - 1)
  }

  /** The needs between the rows of a group. */
  ghost function GroupGraph(rows: seq<Pipeline>, o: Origin): (g: G.NeedsGraph<nat>)
    ensures forall i: nat, y: nat :: G.Edge(g, i, y) <==> Needs(rows, i, y) && rows[i].origin == o
  {
    map i | i in Below(|rows|) && rows[i].origin == o :: NeededRows(rows, i, |rows|)
  }

  // ---------- the latest pipeline of a group ----------

  lemma LatestIsTheOne(rows: seq<Pipeline>, o: Origin, name: string, y: nat)
    requires NamesOnce(rows, o) && y < |rows| && Matches(rows[y], o, name)
    ensures Latest(rows, o, name) == Some(y)
  {
  }

  /** In a group, dead needs and met needs are those of the rows needed. */
  lemma NeedsByRow(rows: seq<Pipeline>, o: Origin, i: nat)
    requires NamesOnce(rows, o) && i < |rows| && rows[i].origin == o
    ensures SomeNeedDead(rows, rows[i]) <==> exists y: nat :: Needs(rows, i, y) && Dead(rows, y)
    ensures AllNeedsMet(rows, rows[i]) <==> forall y: nat | Needs(rows, i, y) :: rows[y].status.Succeeded?
  {
    forall y: nat | Needs(rows, i, y)
      ensures Latest(rows, o, rows[y].name.value) == Some(y)
      ensures exists k :: 0 <= k < |rows[i].needs| && rows[i].needs[k] == rows[y].name.value
    {
      LatestIsTheOne(rows, o, rows[y].name.value, y);
    }
    if SomeNeedDead(rows, rows[i]) {
      var k :| 0 <= k < |rows[i].needs| && NeedDead(rows, o, rows[i].needs[k]);
      var y := Latest(rows, o, rows[i].needs[k]).value;
      assert Needs(rows, i, y) && Dead(rows, y);
    }
    if !AllNeedsMet(rows, rows[i]) {
      var k :| 0 <= k < |rows[i].needs| && !NeedMet(rows, o, rows[i].needs[k]);
      var y := Latest(rows, o, rows[i].needs[k]).value;
      assert Needs(rows, i, y) && !rows[y].status.Succeeded?;
    }
  }

  predicate Dead(rows: seq<Pipeline>, y: nat) {
    y < |rows| && (rows[y].status.Failed? || rows[y].status.Canceled?)
  }

  // ---------- gating ----------

  /** Every started row of the group had all the rows it needs succeed. */
  ghost predicate Gated(rows: seq<Pipeline>, o: Origin) {
    forall i: nat, y: nat {:trigger Needs(rows, i, y)} |
      Needs(rows, i, y) && rows[i].origin == o && rows[i].worker.Some? ::
      rows[y].status.Succeeded?
  }

  ghost predicate GroupOk(db: Db, o: Origin) {
    Sound(db) && NamesOnce(db.pipelines, o) && Gated(db.pipelines, o)
  }

  /** Same group before and after: no row of it is lost, changed in what was submitted, or added. */
  ghost predicate SameGroup(rows: seq<Pipeline>, after: seq<Pipeline>, o: Origin) {
    && |rows| <= |after|
    && (forall i | 0 <= i < |rows| :: SameSubmission(rows[i], after[i]))
    && (forall i | |rows| <= i < |after| :: after[i].origin != o)
  }

  lemma RowStepsKeepGroup(rows: seq<Pipeline>, after: seq<Pipeline>, o: Origin, now: nat)
    requires |rows| <= |after| && forall i | 0 <= i < |rows| :: RowStep(rows[i], after[i], now)
    requires forall i | |rows| <= i < |after| :: after[i].origin != o
    ensures SameGroup(rows, after, o)
  {
    forall i | 0 <= i < |rows|
      ensures SameSubmission(rows[i], after[i])
    {
      RowStepIsLater(rows[i], after[i], now);
    }
  }

  lemma SameGroupTransitive(a: seq<Pipeline>, b: seq<Pipeline>, c: seq<Pipeline>, o: Origin)
    requires SameGroup(a, b, o) && SameGroup(b, c, o)
    ensures SameGroup(a, c, o)
  {
    forall i | |a| <= i < |c|
      ensures c[i].origin != o
    {
      assert i < |b| ==> SameSubmission(b[i], c[i]);
    }
  }

  lemma StepKeepsGroup(db: Db, s: Step, o: Origin)
    requires s.SubmitStep? ==> s.submission.origin != o
    ensures SameGroup(db.pipelines, Apply(db, s).pipelines, o)
  {
    StepKeepsRows(db, s);
    RowStepsKeepGroup(db.pipelines, Apply(db, s).pipelines, o, db.now);
  }

  lemma SameNeeds(rows: seq<Pipeline>, after: seq<Pipeline>, o: Origin, i: nat, y: nat)
    requires SameGroup(rows, after, o)
    ensures Needs(rows, i, y) && rows[i].origin == o <==> Needs(after, i, y) && after[i].origin == o
  {
    if i < |rows| && y < |rows| {
      assert SameSubmission(rows[i], after[i]) && SameSubmission(rows[y], after[y]);
    }
  }

  lemma SameNames(rows: seq<Pipeline>, after: seq<Pipeline>, o: Origin)
    requires SameGroup(rows, after, o) && NamesOnce(rows, o)
    ensures NamesOnce(after, o)
  {
    forall i, j | 0 <= i < j < |after| && after[i].origin == o && after[j].origin == o && after[i].name.Some?
      ensures after[i].name != after[j].name
    {
      assert i < |rows| && j < |rows|;
      assert SameSubmission(rows[i], after[i]) && SameSubmission(rows[j], after[j]);
    }
  }

  lemma StepKeepsGated(db: Db, s: Step, o: Origin)
    requires GroupOk(db, o) && (s.SubmitStep? ==> s.submission.origin != o)
    ensures GroupOk(Apply(db, s), o)
  {
    StepKeepsSound(db, s);
    StepKeepsGroup(db, s, o);
    StepKeepsRows(db, s);
    var after := Apply(db, s).pipelines;
    SameNames(db.pipelines, after, o);
    forall i: nat, y: nat | Needs(after, i, y) && after[i].origin == o && after[i].worker.Some?
      ensures after[y].status.Succeeded?
    {
      SameNeeds(db.pipelines, after, o, i, y);
      assert RowStep(db.pipelines[y], after[y], db.now);
      if db.pipelines[i].worker != after[i].worker {
        StartedHasNeeds(db, s, o, i, y);
      }
    }
  }

  /** A claim only assigns a row whose needs have succeeded. */
  lemma StartedHasNeeds(db: Db, s: Step, o: Origin, i: nat, y: nat)
    requires GroupOk(db, o) && Needs(db.pipelines, i, y) && db.pipelines[i].origin == o
    requires Apply(db, s).pipelines[i].worker != db.pipelines[i].worker
    ensures db.pipelines[y].status.Succeeded?
  {
    StartsByClaim(db, s, i);
    assert Candidate(FailDependents(db.pipelines), db.runners, s.worker, s.supportsSpec, |db.pipelines|) == Some(i);
    CandidateHasNeeds(db.pipelines, db.runners, s.worker, s.supportsSpec, o, i, y);
  }

  lemma CandidateHasNeeds(before: seq<Pipeline>, runners: map<nat, Runner>, w: nat, supportsSpec: bool, o: Origin,
                          i: nat, y: nat)
    requires NamesOnce(before, o) && Needs(before, i, y) && before[i].origin == o
    requires Candidate(FailDependents(before), runners, w, supportsSpec, |before|) == Some(i)
    ensures before[y].status.Succeeded?
  {
    var rows := FailDependents(before);
    assert rows[i] == FailIfDead(before, before[i]);
    assert NamesOnce(rows, o);
    NeedsByRow(rows, o, i);
    assert Needs(rows, i, y);
  }

  lemma {:induction false} RunKeepsGroupOk(db: Db, steps: seq<Step>, o: Origin)
    requires GroupOk(db, o) && Sealed(steps, o)
    ensures GroupOk(Run(db, steps), o) && SameGroup(db.pipelines, Run(db, steps).pipelines, o)
    decreases steps
  {
    if steps != [] {
      StepKeepsGated(db, steps[0], o);
      StepKeepsGroup(db, steps[0], o);
      var next := Apply(db, steps[0]);
      RunKeepsGroupOk(next, steps[1..], o);
      SameGroupTransitive(db.pipelines, next.pipelines, Run(next, steps[1..]).pipelines, o);
    }
  }

  /** A group as it is when all of it is queued and nothing of it was claimed yet. */
  ghost predicate FreshGroup(db: Db, o: Origin) {
    && Sound(db) && NamesOnce(db.pipelines, o)
    && forall i | 0 <= i < |db.pipelines| && db.pipelines[i].origin == o :: db.pipelines[i].status.Queued?
  }

  lemma FreshIsOk(db: Db, o: Origin)
    requires FreshGroup(db, o)
    ensures GroupOk(db, o)
  {
    forall i: nat | i < |db.pipelines| && db.pipelines[i].origin == o
      ensures db.pipelines[i].worker.None?
    {
      assert RowOk(db.pipelines[i], db.now);
    }
  }

  /** p is started: a claim assigned it, whatever happened to it since. */
  ghost predicate Started(db: Db, p: nat) {
    p < |db.pipelines| && db.pipelines[p].worker.Some?
  }

  ghost predicate HasSucceeded(db: Db, p: nat) {
    p < |db.pipelines| && db.pipelines[p].status.Succeeded?
  }

  /** Gating, transitively: everything a started pipeline reaches through present needs has succeeded. */
  lemma StartedNeedsSucceeded(db: Db, steps: seq<Step>, o: Origin, i: nat, y: nat)
    requires FreshGroup(db, o) && Sealed(steps, o)
    requires G.Reaches(GroupGraph(db.pipelines, o), i, y) && y != i
    requires Started(Run(db, steps), i)
    ensures HasSucceeded(Run(db, steps), y)
  {
    FreshIsOk(db, o);
    RunKeepsGroupOk(db, steps, o);
    var p :| G.WalkFromTo(GroupGraph(db.pipelines, o), p, i, y);
    GatedAlongWalk(db.pipelines, Run(db, steps), o, p, |p| - 1);
  }

  lemma {:induction false} GatedAlongWalk(rows: seq<Pipeline>, after: Db, o: Origin, p: seq<nat>, k: nat)
    requires GroupOk(after, o) && SameGroup(rows, after.pipelines, o)
    requires G.IsWalk(GroupGraph(rows, o), p) && 0 < k < |p| && Started(after, p[0])
    ensures HasSucceeded(after, p[k])
  {
    if k > 1 {
      GatedAlongWalk(rows, after, o, p, k - 1);
      assert RowOk(after.pipelines[p[k-1]], after.now);
    }
    assert G.Edge(GroupGraph(rows, o), p[k-1], p[k]);
    SameNeeds(rows, after.pipelines, o, p[k-1], p[k]);
  }

  // ---------- failure propagation ----------

  /** A claim that gets as far as failing dependents. */
  predicate Propagates(db: Db, s: Step) {
    s.ClaimStep? && Reaches(db, s.worker, s.request)
  }

  function Propagations(db: Db, steps: seq<Step>): nat
    decreases steps
  {
    if steps == [] then 0
    else (if Propagates(db, steps[0]) then 1 else 0) + Propagations(Apply(db, steps[0]), steps[1..])
  }

  lemma DeadStaysDead(db: Db, s: Step, y: nat)
    requires Dead(db.pipelines, y)
    ensures Dead(Apply(db, s).pipelines, y)
  {
    StepKeepsRows(db, s);
    assert RowStep(db.pipelines[y], Apply(db, s).pipelines[y], db.now);
  }

  /** A claim leaves alone what the failing of dependents took out of the queue. */
  lemma ClaimKeepsFailed(db: Db, s: Step, i: nat)
    requires Propagates(db, s) && i < |db.pipelines| && !FailIfDead(db.pipelines, db.pipelines[i]).status.Queued?
    ensures i < |Apply(db, s).pipelines| && Apply(db, s).pipelines[i] == FailIfDead(db.pipelines, db.pipelines[i])
  {
    var rows := FailDependents(db.pipelines);
    assert rows[i] == FailIfDead(db.pipelines, db.pipelines[i]);
  }

  /** A pipeline with a dead need is dead or queued. */
  lemma DeadNeedMeansNotStarted(db: Db, o: Origin, i: nat, y: nat)
    requires GroupOk(db, o) && Needs(db.pipelines, i, y) && db.pipelines[i].origin == o && Dead(db.pipelines, y)
    ensures Dead(db.pipelines, i) || db.pipelines[i].status.Queued?
    ensures SomeNeedDead(db.pipelines, db.pipelines[i])
  {
    NeedsByRow(db.pipelines, o, i);
    assert RowOk(db.pipelines[i], db.now);
    assert db.pipelines[i].worker.None?;
  }

  /** One propagating claim carries a failure over one need. */
  lemma ClaimPropagates(db: Db, s: Step, o: Origin, i: nat, y: nat)
    requires GroupOk(db, o) && Propagates(db, s)
    requires Needs(db.pipelines, i, y) && db.pipelines[i].origin == o && Dead(db.pipelines, y)
    ensures Dead(Apply(db, s).pipelines, i)
  {
    DeadNeedMeansNotStarted(db, o, i, y);
    ClaimKeepsFailed(db, s, i);
  }

  /** After n propagating claims a failure has travelled n needs up every walk that leads to it. */
  lemma {:induction false} FailureTravels(db: Db, steps: seq<Step>, o: Origin, rows: seq<Pipeline>, p: seq<nat>)
    requires GroupOk(db, o) && Sealed(steps, o) && SameGroup(rows, db.pipelines, o)
    requires G.IsWalk(GroupGraph(rows, o), p)
    requires Dead(db.pipelines, p[|p|-1]) && Propagations(db, steps) >= |p| - 1
    ensures Dead(Run(db, steps).pipelines, p[0])
    decreases steps
  {
    if steps != [] {
      var q := FailureMoves(db, steps[0], o, rows, p);
      FailureTravels(Apply(db, steps[0]), steps[1..], o, rows, q);
    }
  }

  /** The walk still to travel after one step. */
  lemma FailureMoves(db: Db, s: Step, o: Origin, rows: seq<Pipeline>, p: seq<nat>) returns (q: seq<nat>)
    requires GroupOk(db, o) && (s.SubmitStep? ==> s.submission.origin != o) && SameGroup(rows, db.pipelines, o)
    requires G.IsWalk(GroupGraph(rows, o), p) && Dead(db.pipelines, p[|p|-1])
    ensures GroupOk(Apply(db, s), o) && SameGroup(rows, Apply(db, s).pipelines, o)
    ensures G.IsWalk(GroupGraph(rows, o), q) && q[0] == p[0] && Dead(Apply(db, s).pipelines, q[|q|-1])
    ensures |q| == if Propagates(db, s) && |p| > 1 then |p| - 1 else |p|
  {
    StepKeepsGated(db, s, o);
    StepKeepsGroup(db, s, o);
    SameGroupTransitive(rows, db.pipelines, Apply(db, s).pipelines, o);
    q := FailureGoesOn(db, s, o, rows, p);
  }

  lemma FailureGoesOn(db: Db, s: Step, o: Origin, rows: seq<Pipeline>, p: seq<nat>) returns (q: seq<nat>)
    requires GroupOk(db, o) && SameGroup(rows, db.pipelines, o)
    requires G.IsWalk(GroupGraph(rows, o), p) && Dead(db.pipelines, p[|p|-1])
    ensures G.IsWalk(GroupGraph(rows, o), q) && q[0] == p[0] && Dead(Apply(db, s).pipelines, q[|q|-1])
    ensures |q| == if Propagates(db, s) && |p| > 1 then |p| - 1 else |p|
  {
    if Propagates(db, s) && |p| > 1 {
      q := p[..|p|-1];
      FailureClimbs(db, s, o, rows, p);
    } else {
      q := p;
      DeadStaysDead(db, s, p[|p|-1]);
    }
  }

  lemma FailureClimbs(db: Db, s: Step, o: Origin, rows: seq<Pipeline>, p: seq<nat>)
    requires GroupOk(db, o) && SameGroup(rows, db.pipelines, o) && G.IsWalk(GroupGraph(rows, o), p)
    requires Dead(db.pipelines, p[|p|-1]) && Propagates(db, s) && |p| > 1
    ensures Dead(Apply(db, s).pipelines, p[|p|-2])
  {
    assert G.Edge(GroupGraph(rows, o), p[|p|-2], p[|p|-1]);
    SameNeeds(rows, db.pipelines, o, p[|p|-2], p[|p|-1]);
    ClaimPropagates(db, s, o, p[|p|-2], p[|p|-1]);
  }

  /**
   * Failure or cancellation of y reaches every pipeline that depends on y through n needs by the time n
   * claims have got as far as the update.
   */
  lemma FailureReachesDependents(db: Db, before: seq<Step>, after: seq<Step>, o: Origin, p: seq<nat>)
    requires FreshGroup(db, o) && Sealed(before, o) && Sealed(after, o)
    requires G.IsWalk(GroupGraph(db.pipelines, o), p)
    requires Dead(Run(db, before).pipelines, p[|p|-1])
    requires Propagations(Run(db, before), after) >= |p| - 1
    ensures Dead(Run(Run(db, before), after).pipelines, p[0])
  {
    FreshIsOk(db, o);
    RunKeepsGroupOk(db, before, o);
    FailureTravels(Run(db, before), after, o, db.pipelines, p);
  }

  // ---------- no deadlock ----------

  /** The worker can run whatever the group has queued. */
  predicate Capable(db: Db, o: Origin, w: nat, supportsSpec: bool) {
    forall i | 0 <= i < |db.pipelines| && db.pipelines[i].origin == o && db.pipelines[i].status.Queued? ::
      RunsOn(db.runners, w, db.pipelines[i].os) && (db.pipelines[i].spec.None? || supportsSpec)
  }

  predicate NoneRunning(db: Db, o: Origin) {
    forall i | 0 <= i < |db.pipelines| && db.pipelines[i].origin == o :: !db.pipelines[i].status.Running?
  }

  ghost function QueuedRows(rows: seq<Pipeline>, o: Origin): (s: set<nat>)
    ensures forall i: nat :: i in s <==> i < |rows| && rows[i].origin == o && rows[i].status.Queued?
  {
    set i | i in Below(|rows|) && rows[i].origin == o && rows[i].status.Queued?
  }

  /** Some queued pipeline of the group waits for no queued pipeline. */
  lemma QueueHasHead(db: Db, o: Origin, q: nat) returns (i: nat)
    requires G.Acyclic(GroupGraph(db.pipelines, o))
    requires q < |db.pipelines| && db.pipelines[q].origin == o && db.pipelines[q].status.Queued?
    ensures i < |db.pipelines| && db.pipelines[i].origin == o && db.pipelines[i].status.Queued?
    ensures forall y: nat | Needs(db.pipelines, i, y) :: !db.pipelines[y].status.Queued?
  {
    var g, queued := GroupGraph(db.pipelines, o), QueuedRows(db.pipelines, o);
    assert q in queued;
    i := G.AcyclicHasMinimal(g, queued);
    forall y: nat | Needs(db.pipelines, i, y)
      ensures !db.pipelines[y].status.Queued?
    {
      assert G.Edge(g, i, y);
    }
  }

  predicate LeavesQueue(before: Db, after: Db, x: nat) {
    x < |before.pipelines| && x < |after.pipelines|
    && before.pipelines[x].status.Queued? && !after.pipelines[x].status.Queued?
  }

  /**
   * While the group has a queued pipeline and none running, a claim of a capable worker that gets as far
   * as the update takes some pipeline out of the queue: needs never deadlock.
   */
  lemma ClaimMakesProgress(db: Db, o: Origin, w: nat, request: Option<nat>, supportsSpec: bool, q: nat) returns (x: nat)
    requires GroupOk(db, o) && G.Acyclic(GroupGraph(db.pipelines, o)) && Capable(db, o, w, supportsSpec)
    requires NoneRunning(db, o)
    requires q < |db.pipelines| && db.pipelines[q].origin == o && db.pipelines[q].status.Queued?
    requires Reaches(db, w, request)
    ensures LeavesQueue(db, Apply(db, ClaimStep(w, request, supportsSpec)), x)
  {
    var i := QueueHasHead(db, o, q);
    if SomeNeedDead(db.pipelines, db.pipelines[i]) {
      x := i;
    } else {
      HeadIsClaimable(db, o, w, supportsSpec, i);
      x := Candidate(FailDependents(db.pipelines), db.runners, w, supportsSpec, |db.pipelines|).value;
    }
    ClaimLeavesQueue(db, w, request, supportsSpec, x);
  }

  /** A claim that reaches the update takes its candidate and every row with a dead need out of the queue. */
  lemma ClaimLeavesQueue(db: Db, w: nat, request: Option<nat>, supportsSpec: bool, x: nat)
    requires Reaches(db, w, request)
    requires (x < |db.pipelines| && db.pipelines[x].status.Queued? && SomeNeedDead(db.pipelines, db.pipelines[x]))
          || Candidate(FailDependents(db.pipelines), db.runners, w, supportsSpec, |db.pipelines|) == Some(x)
    ensures LeavesQueue(db, Apply(db, ClaimStep(w, request, supportsSpec)), x)
  {
    var rows := FailDependents(db.pipelines);
    assert x < |rows| && rows[x] == FailIfDead(db.pipelines, db.pipelines[x]);
  }

  lemma HeadIsClaimable(db: Db, o: Origin, w: nat, supportsSpec: bool, i: nat)
    requires GroupOk(db, o) && Capable(db, o, w, supportsSpec)
    requires NoneRunning(db, o)
    requires i < |db.pipelines| && db.pipelines[i].origin == o && db.pipelines[i].status.Queued?
    requires forall y: nat | Needs(db.pipelines, i, y) :: !db.pipelines[y].status.Queued?
    requires !SomeNeedDead(db.pipelines, db.pipelines[i])
    ensures Candidate(FailDependents(db.pipelines), db.runners, w, supportsSpec, |db.pipelines|).Some?
  {
    var rows := FailDependents(db.pipelines);
    NeedsByRow(db.pipelines, o, i);
    assert NamesOnce(rows, o);
    NeedsByRow(rows, o, i);
    forall y: nat | Needs(rows, i, y)
      ensures rows[y].status.Succeeded?
    {
      assert Needs(db.pipelines, i, y);
      assert !Dead(db.pipelines, y);
    }
    assert RowOk(db.pipelines[i], db.now);
    assert Claimable(rows, db.runners, w, supportsSpec, rows[i]);
  }

  /** The needs of a group stay acyclic, whatever happens to its statuses. */
  lemma SameGroupStaysAcyclic(rows: seq<Pipeline>, after: seq<Pipeline>, o: Origin)
    requires SameGroup(rows, after, o) && G.Acyclic(GroupGraph(rows, o))
    ensures G.Acyclic(GroupGraph(after, o))
  {
    var g, h := GroupGraph(after, o), GroupGraph(rows, o);
    forall i: nat, y: nat | G.Edge(g, i, y)
      ensures G.Edge(h, i, y)
    {
      SameNeeds(rows, after, o, i, y);
    }
    forall i
      ensures !G.OnCycle(g, i)
    {
      if G.OnCycle(g, i) {
        G.MappedCycle(g, h, (x: nat) => x, i);
      }
    }
  }

  /** From a fresh acyclic group on, in every reachable state: needs never deadlock the queue. */
  lemma NeedsNeverDeadlock(db: Db, steps: seq<Step>, o: Origin, w: nat, request: Option<nat>, supportsSpec: bool,
                           q: nat)
    returns (x: nat)
    requires FreshGroup(db, o) && G.Acyclic(GroupGraph(db.pipelines, o)) && Sealed(steps, o)
    requires Capable(Run(db, steps), o, w, supportsSpec) && Reaches(Run(db, steps), w, request)
    requires NoneRunning(Run(db, steps), o)
    requires q < |Run(db, steps).pipelines| && Run(db, steps).pipelines[q].origin == o
    requires Run(db, steps).pipelines[q].status.Queued?
    ensures LeavesQueue(Run(db, steps), Run(db, steps + [ClaimStep(w, request, supportsSpec)]), x)
  {
    FreshIsOk(db, o);
    RunKeepsGroupOk(db, steps, o);
    SameGroupStaysAcyclic(db.pipelines, Run(db, steps).pipelines, o);
    x := ClaimMakesProgress(Run(db, steps), o, w, request, supportsSpec, q);
    RunConcat(db, steps, [ClaimStep(w, request, supportsSpec)]);
    RunOne(Run(db, steps), ClaimStep(w, request, supportsSpec));
  }

  lemma RunOne(db: Db, s: Step)
    ensures Run(db, [s]) == Apply(db, s)
  {
    assert [s][1..] == [];
  }

  // ---------- draining the queue ----------

  ghost function AllQueued(rows: seq<Pipeline>): (s: set<nat>)
    ensures forall i: nat :: i in s <==> i < |rows| && rows[i].status.Queued?
  {
    set i | i in Below(|rows|) && rows[i].status.Queued?
  }

  predicate SomeQueued(db: Db, o: Origin) {
    exists i :: 0 <= i < |db.pipelines| && db.pipelines[i].origin == o && db.pipelines[i].status.Queued?
  }

  /** A claim of a capable worker that gets as far as the update, while the group waits and nothing of it runs. */
  predicate IsChance(db: Db, s: Step, o: Origin) {
    && s.ClaimStep? && Reaches(db, s.worker, s.request) && Capable(db, o, s.worker, s.supportsSpec)
    && NoneRunning(db, o) && SomeQueued(db, o)
  }

  function Chances(db: Db, steps: seq<Step>, o: Origin): nat
    decreases steps
  {
    if steps == [] then 0
    else (if IsChance(db, steps[0], o) then 1 else 0) + Chances(Apply(db, steps[0]), steps[1..], o)
  }

  predicate NoSubmission(steps: seq<Step>) {
    forall k | 0 <= k < |steps| :: !steps[k].SubmitStep?
  }

  lemma QueueOnlyShrinks(db: Db, s: Step)
    requires !s.SubmitStep?
    ensures AllQueued(Apply(db, s).pipelines) <= AllQueued(db.pipelines)
  {
    StepKeepsRows(db, s);
    forall i | i in AllQueued(Apply(db, s).pipelines)
      ensures i in AllQueued(db.pipelines)
    {
      RowStepIsLater(db.pipelines[i], Apply(db, s).pipelines[i], db.now);
    }
  }

  lemma ChanceShrinksQueue(db: Db, s: Step, o: Origin)
    requires GroupOk(db, o) && G.Acyclic(GroupGraph(db.pipelines, o)) && IsChance(db, s, o)
    ensures |AllQueued(Apply(db, s).pipelines)| < |AllQueued(db.pipelines)|
  {
    var q: nat :| q < |db.pipelines| && db.pipelines[q].origin == o && db.pipelines[q].status.Queued?;
    var x := ClaimMakesProgress(db, o, s.worker, s.request, s.supportsSpec, q);
    QueueOnlyShrinks(db, s);
    SmallerSet(AllQueued(Apply(db, s).pipelines), AllQueued(db.pipelines), x);
  }

  lemma SmallerSet(a: set<nat>, b: set<nat>, x: nat)
    requires a <= b && x in b && x !in a
    ensures |a| < |b|
  {
    assert a <= b - {x};
    SubsetIsNoLarger(a, b - {x});
  }

  lemma {:induction false} SubsetIsNoLarger(a: set<nat>, b: set<nat>)
    requires a <= b
    ensures |a| <= |b|
    decreases |a|
  {
    if a != {} {
      var x :| x in a;
      SubsetIsNoLarger(a - {x}, b - {x});
    }
  }

  /** Without submissions every chance the group gets is paid for by a pipeline that leaves the queue. */
  lemma {:induction false} ChancesAreBounded(db: Db, steps: seq<Step>, o: Origin)
    requires GroupOk(db, o) && G.Acyclic(GroupGraph(db.pipelines, o)) && NoSubmission(steps)
    ensures |AllQueued(Run(db, steps).pipelines)| + Chances(db, steps, o) <= |AllQueued(db.pipelines)|
    decreases steps
  {
    if steps != [] {
      var next := Apply(db, steps[0]);
      StepKeepsGated(db, steps[0], o);
      StepKeepsGroup(db, steps[0], o);
      SameGroupStaysAcyclic(db.pipelines, next.pipelines, o);
      QueueOnlyShrinks(db, steps[0]);
      SubsetIsNoLarger(AllQueued(next.pipelines), AllQueued(db.pipelines));
      if IsChance(db, steps[0], o) {
        ChanceShrinksQueue(db, steps[0], o);
      }
      ChancesAreBounded(next, steps[1..], o);
    }
  }

  /**
   * However claims, reports, cancellations and reaps are interleaved: once a fresh acyclic group had as many chances
   * as there were queued pipelines, of this group and of others, none of it is queued any more.
   */
  lemma GroupLeavesQueue(db: Db, steps: seq<Step>, o: Origin)
    requires FreshGroup(db, o) && G.Acyclic(GroupGraph(db.pipelines, o)) && NoSubmission(steps)
    requires Chances(db, steps, o) >= |AllQueued(db.pipelines)|
    ensures !SomeQueued(Run(db, steps), o)
  {
    FreshIsOk(db, o);
    ChancesAreBounded(db, steps, o);
    assert AllQueued(Run(db, steps).pipelines) == {};
    forall i: nat | i < |Run(db, steps).pipelines|
      ensures !Run(db, steps).pipelines[i].status.Queued?
    {
      assert i !in AllQueued(Run(db, steps).pipelines);
    }
  }
}
