/** The emission loop of configuration validation: repeatedly emit the least unblocked node. */
module Topo {
  import opened Wrappers
  import opened Graph

  ghost predicate NoDup<T>(s: seq<T>) {
    forall a, b | 0 <= a < b < |s| :: s[a] != s[b]
  }

  /** Prerequisite lists by index: in range and without repetition. */
  ghost predicate ValidPrereqs(p: seq<seq<nat>>) {
    && (forall i, y | 0 <= i < |p| && y in p[i] :: y < |p|)
    && (forall i | 0 <= i < |p| :: NoDup(p[i]))
  }

  ghost function IndexGraph(p: seq<seq<nat>>): NeedsGraph<nat> {
    map i: nat | i < |p| :: p[i]
  }

  /** The reverse lists: d lists exactly the nodes that have d as prerequisite. */
  ghost predicate Inverse(p: seq<seq<nat>>, d: seq<seq<nat>>) {
    && |d| == |p|
    && (forall y, i | 0 <= y < |p| && 0 <= i < |p| :: i in d[y] <==> y in p[i])
    && (forall y, i | 0 <= y < |p| && i in d[y] :: 0 <= i < |p|)
    && (forall y | 0 <= y < |p| :: NoDup(d[y]))
  }

  ghost predicate Eligible(p: seq<seq<nat>>, done: seq<nat>, i: int) {
    0 <= i < |p| && i !in done && forall y | y in p[i] :: y in done
  }

  /** Emission priority: earlier stage first, then earlier index. */
  predicate Before(stage: seq<nat>, i: nat, j: nat)
    requires i < |stage| && j < |stage|
  {
    stage[i] < stage[j] || (stage[i] == stage[j] && i < j)
  }

  ghost predicate IsChoice(p: seq<seq<nat>>, stage: seq<nat>, done: seq<nat>, next: int)
    requires |stage| == |p|
  {
    Eligible(p, done, next) && forall j | Eligible(p, done, j) :: j == next || Before(stage, next, j)
  }

  /** Every element is the least eligible one after the elements before it. */
  ghost predicate IsGreedy(p: seq<seq<nat>>, stage: seq<nat>, order: seq<nat>)
    requires |stage| == |p|
  {
    forall k | 0 <= k < |order| :: IsChoice(p, stage, order[..k], order[k])
  }

  /** A permutation of all nodes that puts every prerequisite first. */
  ghost predicate IsTopological(p: seq<seq<nat>>, order: seq<nat>) {
    && |order| == |p| && NoDup(order)
    && (forall k | 0 <= k < |order| :: order[k] < |p|)
    && (forall k, y | 0 <= k < |order| && order[k] < |p| && y in p[order[k]] :: y in order[..k])
  }

  ghost predicate LexPrecedes(stage: seq<nat>, a: seq<nat>, b: seq<nat>)
    requires forall k | 0 <= k < |a| :: a[k] < |stage|
    requires forall k | 0 <= k < |b| :: b[k] < |stage|
  {
    a == b || exists k :: 0 <= k < |a| && k < |b| && a[..k] == b[..k] && Before(stage, a[k], b[k])
  }

  // ---------- counting prerequisites that are still missing ----------

  ghost function Missing(q: seq<nat>, done: seq<nat>): nat {
    if q == [] then 0 else (if q[0] in done then 0 else 1) + Missing(q[1..], done)
  }

  lemma {:induction false} MissingZero(q: seq<nat>, done: seq<nat>)
    ensures Missing(q, done) == 0 <==> forall y | y in q :: y in done
  {
    if q != [] {
      MissingZero(q[1..], done);
      assert forall y | y in q :: y == q[0] || y in q[1..];
    }
  }

  lemma {:induction false} MissingNone(q: seq<nat>)
    ensures Missing(q, []) == |q|
  {
    if q != [] {
      MissingNone(q[1..]);
    }
  }

  lemma {:induction false} MissingAfter(q: seq<nat>, done: seq<nat>, next: nat)
    requires NoDup(q) && next !in done
    ensures Missing(q, done) == Missing(q, done + [next]) + if next in q then 1 else 0
  {
    if q != [] {
      MissingAfter(q[1..], done, next);
      assert next in q <==> next == q[0] || next in q[1..];
      assert q[0] in done + [next] <==> q[0] in done || q[0] == next;
    }
  }

  // ---------- the loop ----------

  ghost function Below(n: nat): (s: set<nat>)
    ensures |s| == n && forall x: nat :: x in s <==> x < n
  {
    if n == 0 then {} else Below(n - 1) + {n - 1}
  }

  ghost predicate WaitsForUnemitted(p: seq<seq<nat>>, emitted: seq<bool>, i: nat) {
    i < |p| && exists y :: y in p[i] && y < |emitted| && !emitted[y]
  }

  /** Something is unemitted and every unemitted node waits for another one. */
  ghost predicate IsStuck(p: seq<seq<nat>>, emitted: seq<bool>) {
    && |emitted| == |p|
    && (exists i :: 0 <= i < |p| && !emitted[i])
    && (forall i: nat {:trigger WaitsForUnemitted(p, emitted, i)} | i < |p| && !emitted[i] ::
          WaitsForUnemitted(p, emitted, i))
  }

  lemma WalkGoesOn(g: NeedsGraph<nat>, walk: seq<nat>, x: nat, y: nat)
    requires IsWalk(g, walk) && walk[|walk|-1] == x && Edge(g, x, y)
    ensures IsWalk(g, walk + [y])
    ensures (walk + [y])[..|walk|] == walk[..|walk|-1] + [x]
  {
  }

  lemma WalkReturns(g: NeedsGraph<nat>, walk: seq<nat>, x: nat)
    requires IsWalk(g, walk) && walk[|walk|-1] == x && x in walk[..|walk|-1]
    ensures OnCycle(g, x)
  {
    var k :| 0 <= k < |walk| - 1 && walk[k] == x;
    assert IsCycleThrough(g, walk[k..], x);
  }

  /** Walks upstream through unemitted prerequisites until a node repeats. */
  method CycleMember(p: seq<seq<nat>>, emitted: array<bool>) returns (r: Option<nat>)
    requires ValidPrereqs(p) && emitted.Length == |p|
    ensures r.Some? ==> r.value < |p| && !emitted[r.value] && OnCycle(IndexGraph(p), r.value)
    ensures IsStuck(p, emitted[..]) ==> r.Some?
  {
    var first := FirstUnemitted(emitted);
    if first.None? {
      return None;
    }
    var node: nat := first.value;
    var visited: set<nat> := {};
    ghost var walk: seq<nat> := [node];
    while node !in visited
      invariant node < |p| && !emitted[node]
      invariant IsWalk(IndexGraph(p), walk) && walk[|walk|-1] == node
      invariant forall x :: x in visited <==> x in walk[..|walk|-1]
      invariant visited <= Below(|p|)
      decreases Below(|p|) - visited
    {
      visited := visited + {node};
      forall k | 0 <= k < |p[node]|
        ensures p[node][k] < |p|
      {
        assert p[node][k] in p[node];
      }
      var up := FirstUnemittedIn(p[node], emitted);
      if up.None? {
        assert !WaitsForUnemitted(p, emitted[..], node);
        return None;
      }
      assert Edge(IndexGraph(p), node, up.value);
      WalkGoesOn(IndexGraph(p), walk, node, up.value);
      walk := walk + [up.value];
      node := up.value;
    }
    WalkReturns(IndexGraph(p), walk, node);
    return Some(node);
  }

  method FirstUnemitted(emitted: array<bool>) returns (r: Option<nat>)
    ensures r.Some? ==> r.value < emitted.Length && !emitted[r.value]
                        && forall i | 0 <= i < r.value :: emitted[i]
    ensures r.None? ==> forall i | 0 <= i < emitted.Length :: emitted[i]
  {
    for i := 0 to emitted.Length
      invariant forall j | 0 <= j < i :: emitted[j]
    {
      if !emitted[i] {
        return Some(i);
      }
    }
    return None;
  }

  method FirstUnemittedIn(q: seq<nat>, emitted: array<bool>) returns (r: Option<nat>)
    requires forall k | 0 <= k < |q| :: q[k] < emitted.Length
    ensures r.Some? ==> r.value in q && r.value < emitted.Length && !emitted[r.value]
    ensures r.None? ==> forall k | 0 <= k < |q| :: emitted[q[k]]
  {
    for i := 0 to |q|
      invariant forall j | 0 <= j < i :: emitted[q[j]]
    {
      if !emitted[q[i]] {
        return Some(q[i]);
      }
    }
    return None;
  }

  /** The least unblocked node by stage and then index, if any. */
  method LeastUnblocked(stage: seq<nat>, indegrees: array<nat>, emitted: array<bool>) returns (r: Option<nat>)
    requires |stage| == indegrees.Length == emitted.Length
    ensures r.Some? ==> r.value < |stage| && !emitted[r.value] && indegrees[r.value] == 0
    ensures r.Some? ==> forall j | 0 <= j < |stage| && !emitted[j] && indegrees[j] == 0 ::
                          j == r.value || Before(stage, r.value, j)
    ensures r.None? ==> forall j | 0 <= j < |stage| :: emitted[j] || indegrees[j] != 0
  {
    r := None;
    for i := 0 to |stage|
      invariant r.Some? ==> r.value < i && !emitted[r.value] && indegrees[r.value] == 0
      invariant r.Some? ==> forall j | 0 <= j < i && !emitted[j] && indegrees[j] == 0 ::
                              j == r.value || Before(stage, r.value, j)
      invariant r.None? ==> forall j | 0 <= j < i :: emitted[j] || indegrees[j] != 0
    {
      if !emitted[i] && indegrees[i] == 0 && (r.None? || Before(stage, i, r.value)) {
        r := Some(i);
      }
    }
  }

  /** Indegrees are exact: they count the prerequisites that are not emitted yet. */
  ghost predicate Bookkeeping(p: seq<seq<nat>>, order: seq<nat>, indegrees: seq<nat>, emitted: seq<bool>) {
    && |indegrees| == |emitted| == |p|
    && (forall i | 0 <= i < |p| :: emitted[i] <==> i in order)
    && (forall i | 0 <= i < |p| :: indegrees[i] == Missing(p[i], order))
  }

  datatype OrderResult = Ordered(order: seq<nat>) | Cyclic(member: Option<nat>)

  /**
   * The emission loop. It emits all nodes, each the least eligible one, or stops with a node that lies
   * on a cycle.
   */
  method Emit(p: seq<seq<nat>>, dependents: seq<seq<nat>>, degrees: seq<nat>, stage: seq<nat>)
    returns (r: OrderResult)
    requires ValidPrereqs(p) && Inverse(p, dependents) && |stage| == |p| == |degrees|
    requires forall i | 0 <= i < |p| :: degrees[i] == |p[i]|
    ensures r.Ordered? ==> |r.order| == |p| && IsGreedy(p, stage, r.order)
    ensures r.Cyclic? ==> r.member.Some? && r.member.value < |p| && OnCycle(IndexGraph(p), r.member.value)
  {
    var order: seq<nat> := [];
    var emitted := new bool[|p|](_ => false);
    var indegrees := new nat[|p|](i requires 0 <= i < |p| => degrees[i]);
    NothingEmitted(p, indegrees[..], emitted[..]);
    while |order| < |p|
      invariant |order| <= |p|
      invariant IsGreedy(p, stage, order)
      invariant Bookkeeping(p, order, indegrees[..], emitted[..])
    {
      var next := EmitNext(p, dependents, stage, order, indegrees, emitted);
      if next.None? {
        StuckIsBlocked(p, order, indegrees[..], emitted[..]);
        var member := CycleMember(p, emitted);
        return Cyclic(member);
      }
      GreedySnoc(p, stage, order, next.value);
      order := order + [next.value];
    }
    return Ordered(order);
  }

  /** One turn of the loop: picks the least unblocked node, marks it and lowers its dependents. */
  method EmitNext(p: seq<seq<nat>>, dependents: seq<seq<nat>>, stage: seq<nat>, ghost order: seq<nat>,
                  indegrees: array<nat>, emitted: array<bool>)
    returns (next: Option<nat>)
    requires ValidPrereqs(p) && Inverse(p, dependents) && |stage| == |p|
    requires Bookkeeping(p, order, indegrees[..], emitted[..])
    modifies indegrees, emitted
    ensures next.None? ==> unchanged(indegrees) && unchanged(emitted)
    ensures next.None? ==> forall j | 0 <= j < |p| :: emitted[j] || indegrees[j] != 0
    ensures next.Some? ==> IsChoice(p, stage, order, next.value)
    ensures next.Some? ==> Bookkeeping(p, order + [next.value], indegrees[..], emitted[..])
  {
    next := LeastUnblocked(stage, indegrees, emitted);
    if next.Some? {
      var n := next.value;
      LeastIsChoice(p, stage, order, indegrees[..], emitted[..], n);
      emitted[n] := true;
      DecrementDependents(p, order, n, dependents[n], indegrees);
    }
  }

  lemma NothingEmitted(p: seq<seq<nat>>, indegrees: seq<nat>, emitted: seq<bool>)
    requires |indegrees| == |emitted| == |p|
    requires forall i | 0 <= i < |p| :: !emitted[i] && indegrees[i] == |p[i]|
    ensures Bookkeeping(p, [], indegrees, emitted)
  {
    forall i | 0 <= i < |p|
      ensures indegrees[i] == Missing(p[i], [])
    {
      MissingNone(p[i]);
    }
  }

  lemma LeastIsChoice(p: seq<seq<nat>>, stage: seq<nat>, order: seq<nat>, indegrees: seq<nat>, emitted: seq<bool>,
                      n: nat)
    requires |stage| == |p| && Bookkeeping(p, order, indegrees, emitted)
    requires n < |p| && !emitted[n] && indegrees[n] == 0
    requires forall j | 0 <= j < |p| && !emitted[j] && indegrees[j] == 0 :: j == n || Before(stage, n, j)
    ensures IsChoice(p, stage, order, n)
  {
    MissingZero(p[n], order);
    forall j | Eligible(p, order, j)
      ensures j == n || Before(stage, n, j)
    {
      MissingZero(p[j], order);
    }
  }

  /** Lowers the indegree of every dependent of n by one. */
  method DecrementDependents(p: seq<seq<nat>>, ghost order: seq<nat>, ghost n: nat, dependents: seq<nat>,
                             indegrees: array<nat>)
    requires ValidPrereqs(p) && indegrees.Length == |p| && n !in order
    requires NoDup(dependents) && (forall i | i in dependents :: 0 <= i < |p|)
    requires forall i | 0 <= i < |p| :: i in dependents <==> n in p[i]
    requires forall i | 0 <= i < |p| :: indegrees[i] == Missing(p[i], order)
    modifies indegrees
    ensures forall i | 0 <= i < |p| :: indegrees[i] == Missing(p[i], order + [n])
  {
    forall i | 0 <= i < |p|
      ensures Missing(p[i], order) == Missing(p[i], order + [n]) + if n in p[i] then 1 else 0
    {
      MissingAfter(p[i], order, n);
    }
    for k := 0 to |dependents|
      invariant forall i | 0 <= i < |p| ::
                  indegrees[i] == Missing(p[i], order) - if i in dependents[..k] then 1 else 0
    {
      var d := dependents[k];
      assert d in dependents && d !in dependents[..k];
      indegrees[d] := indegrees[d] - 1;
      assert dependents[..k+1] == dependents[..k] + [d];
    }
    assert dependents[..|dependents|] == dependents;
  }

  lemma StuckIsBlocked(p: seq<seq<nat>>, order: seq<nat>, indegrees: seq<nat>, emitted: seq<bool>)
    requires ValidPrereqs(p) && Bookkeeping(p, order, indegrees, emitted) && |order| < |p|
    requires forall j | 0 <= j < |p| :: emitted[j] || indegrees[j] != 0
    ensures IsStuck(p, emitted)
  {
    if forall i | 0 <= i < |p| :: emitted[i] {
      CoveringListIsLong(order, |p|);
      assert false;
    }
    forall i: nat | i < |p| && !emitted[i]
      ensures WaitsForUnemitted(p, emitted, i)
    {
      MissingZero(p[i], order);
      var y :| y in p[i] && y !in order;
      assert !emitted[y];
    }
  }

  lemma {:induction false} CoveringListIsLong(order: seq<nat>, n: nat)
    requires forall i: nat | i < n :: i in order
    ensures n <= |order|
  {
    var s := Elements(order);
    var idents := seq(n, i => i);
    DistinctFitsInSet(idents, s);
  }

  ghost function Elements(s: seq<nat>): (r: set<nat>)
    ensures |r| <= |s| && forall x :: x in r <==> x in s
  {
    if s == [] then {} else {s[0]} + Elements(s[1..])
  }

  lemma GreedySnoc(p: seq<seq<nat>>, stage: seq<nat>, order: seq<nat>, n: nat)
    requires |stage| == |p| && IsGreedy(p, stage, order) && IsChoice(p, stage, order, n)
    ensures IsGreedy(p, stage, order + [n])
  {
    var all := order + [n];
    forall k | 0 <= k < |all|
      ensures IsChoice(p, stage, all[..k], all[k])
    {
      if k < |order| {
        assert all[..k] == order[..k];
        assert IsChoice(p, stage, order[..k], order[k]);
      } else {
        assert all[..k] == order;
      }
    }
  }

  // ---------- what the emitted order is ----------

  lemma GreedyInRange(p: seq<seq<nat>>, stage: seq<nat>, order: seq<nat>)
    requires |stage| == |p| && IsGreedy(p, stage, order)
    ensures forall k | 0 <= k < |order| :: order[k] < |p|
    ensures NoDup(order)
  {
    forall k | 0 <= k < |order|
      ensures order[k] < |p| && order[k] !in order[..k]
    {
      assert IsChoice(p, stage, order[..k], order[k]);
    }
    forall a, b | 0 <= a < b < |order|
      ensures order[a] != order[b]
    {
      assert order[..b][a] == order[a];
    }
  }

  /** A full emission order is a permutation with every prerequisite first. */
  lemma GreedyIsTopological(p: seq<seq<nat>>, stage: seq<nat>, order: seq<nat>)
    requires |stage| == |p| == |order| && IsGreedy(p, stage, order)
    ensures IsTopological(p, order)
  {
    GreedyInRange(p, stage, order);
    forall k, y | 0 <= k < |order| && y in p[order[k]]
      ensures y in order[..k]
    {
      assert IsChoice(p, stage, order[..k], order[k]);
    }
  }

  /** Among all topological orders the emitted one is lexicographically least by (stage, index). */
  lemma GreedyIsLeast(p: seq<seq<nat>>, stage: seq<nat>, order: seq<nat>, other: seq<nat>)
    requires |stage| == |p| == |order| && IsGreedy(p, stage, order) && IsTopological(p, other)
    ensures forall k | 0 <= k < |order| :: order[k] < |p|
    ensures LexPrecedes(stage, order, other)
  {
    GreedyInRange(p, stage, order);
    if order != other {
      var k := FirstDifferent(order, other);
      assert other[k] !in order[..k] by {
        assert forall a | 0 <= a < k :: order[..k][a] == other[a];
      }
      assert Eligible(p, order[..k], other[k]);
      assert IsChoice(p, stage, order[..k], order[k]);
    }
  }

  lemma FirstDifferent<T>(a: seq<T>, b: seq<T>) returns (k: nat)
    requires |a| == |b| && a != b
    ensures k < |a| && a[..k] == b[..k] && a[k] != b[k]
  {
    assert a[..|a|] == a && b[..|b|] == b;
    k := 0;
    while k < |a| && a[k] == b[k]
      invariant k <= |a| && a[..k] == b[..k]
    {
      k := k + 1;
    }
  }

  lemma GreedyIsUnique(p: seq<seq<nat>>, stage: seq<nat>, a: seq<nat>, b: seq<nat>)
    requires |stage| == |p| == |a| == |b| && IsGreedy(p, stage, a) && IsGreedy(p, stage, b)
    ensures a == b
  {
    GreedyPrefixesAgree(p, stage, a, b, |a|);
    assert a[..|a|] == a && b[..|b|] == b;
  }

  lemma {:induction false} GreedyPrefixesAgree(p: seq<seq<nat>>, stage: seq<nat>, a: seq<nat>, b: seq<nat>, k: nat)
    requires |stage| == |p| == |a| == |b| && IsGreedy(p, stage, a) && IsGreedy(p, stage, b) && k <= |a|
    ensures a[..k] == b[..k]
  {
    if k > 0 {
      GreedyPrefixesAgree(p, stage, a, b, k - 1);
      assert IsChoice(p, stage, a[..k-1], a[k-1]) && IsChoice(p, stage, b[..k-1], b[k-1]);
    }
  }

  ghost predicate NoLaterStage(p: seq<seq<nat>>, stage: seq<nat>)
    requires |stage| == |p|
  {
    forall x, y | 0 <= x < |p| && y in p[x] :: y < |p| && stage[y] <= stage[x]
  }

  /** When no prerequisite sits in a later stage, the emitted order never goes back a stage. */
  lemma {:induction false} GreedyIsStageSorted(p: seq<seq<nat>>, stage: seq<nat>, order: seq<nat>, i: nat, j: nat)
    requires |stage| == |p| && IsGreedy(p, stage, order) && NoLaterStage(p, stage) && i <= j < |order|
    ensures order[i] < |p| && order[j] < |p| && stage[order[i]] <= stage[order[j]]
    decreases j - i
  {
    GreedyInRange(p, stage, order);
    if i < j {
      GreedyIsStageSorted(p, stage, order, i, j - 1);
      var before, a, b := order[..j-1], order[j-1], order[j];
      assert IsChoice(p, stage, before, a) && IsChoice(p, stage, order[..j], b);
      assert order[..j] == before + [a];
      // Otherwise b would have been eligible before a, or would need the later-stage a.
      assert a in p[b] || Eligible(p, before, b);
    }
  }

  /** On nodes that are already topological and stage-sorted the loop emits 0, 1, 2, ... */
  lemma SortedInputIsEmittedInOrder(p: seq<seq<nat>>, stage: seq<nat>, order: seq<nat>)
    requires |stage| == |p| == |order| && IsGreedy(p, stage, order)
    requires forall x, y | 0 <= x < |p| && y in p[x] :: y < x
    requires forall i, j | 0 <= i <= j < |p| :: stage[i] <= stage[j]
    ensures order == seq(|p|, i => i)
  {
    var idents := seq(|p|, i => i);
    forall k | 0 <= k < |idents|
      ensures IsChoice(p, stage, idents[..k], idents[k])
    {
      forall y: nat
        ensures y in idents[..k] <==> y < k
      {
        if y < k {
          assert idents[..k][y] == y;
        }
      }
    }
    GreedyIsUnique(p, stage, order, idents);
  }

  /** Topological orders exist only for acyclic graphs. */
  lemma TopologicalIsAcyclic(p: seq<seq<nat>>, order: seq<nat>)
    requires ValidPrereqs(p) && IsTopological(p, order)
    ensures Acyclic(IndexGraph(p))
  {
    var rank := map i: nat | i in order :: Position(order, i);
    forall i: nat | i < |p|
      ensures i in order
    {
      PermutationCovers(order, |p|, i);
    }
    forall x, y | x in rank && Edge(IndexGraph(p), x, y)
      ensures y in rank && rank[y] < rank[x]
    {
      var k := Position(order, x);
      assert y in order[..k];
      var m :| 0 <= m < k && order[m] == y;
    }
    OrderedIsAcyclic(IndexGraph(p), rank);
  }

  ghost function Position(order: seq<nat>, i: nat): (k: nat)
    requires i in order
    ensures k < |order| && order[k] == i
  {
    var k :| 0 <= k < |order| && order[k] == i;
    k
  }

  /** A repetition-free list of n numbers below n contains every number below n. */
  lemma PermutationCovers(order: seq<nat>, n: nat, i: nat)
    requires |order| == n && NoDup(order) && i < n
    requires forall k | 0 <= k < n :: order[k] < n
    ensures i in order
  {
    if i !in order {
      DistinctFitsInSet(order, Below(n) - {i});
    }
  }
}
