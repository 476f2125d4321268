/** Directed graphs of needs: g[x] lists what x needs. Nodes outside g need nothing. */
module Graph {

  type NeedsGraph<!T> = map<T, seq<T>>

  predicate Edge<T(==)>(g: NeedsGraph<T>, x: T, y: T) {
    x in g && y in g[x]
  }

  /** p follows needs, one edge at a time. */
  ghost predicate IsWalk<T>(g: NeedsGraph<T>, p: seq<T>) {
    |p| > 0 && forall k | 0 < k < |p| :: Edge(g, p[k-1], p[k])
  }

  ghost predicate WalkFromTo<T>(g: NeedsGraph<T>, p: seq<T>, x: T, y: T) {
    IsWalk(g, p) && p[0] == x && p[|p|-1] == y
  }

  /** x depends on y, directly or through other nodes; every node reaches itself. */
  ghost predicate Reaches<T(!new)>(g: NeedsGraph<T>, x: T, y: T) {
    exists p :: WalkFromTo(g, p, x, y)
  }

  ghost predicate IsCycleThrough<T>(g: NeedsGraph<T>, p: seq<T>, x: T) {
    |p| >= 2 && WalkFromTo(g, p, x, x)
  }

  ghost predicate OnCycle<T(!new)>(g: NeedsGraph<T>, x: T) {
    exists p :: IsCycleThrough(g, p, x)
  }

  ghost predicate Acyclic<T(!new)>(g: NeedsGraph<T>) {
    forall x :: !OnCycle(g, x)
  }

  lemma WalkConcat<T(!new)>(g: NeedsGraph<T>, p: seq<T>, q: seq<T>, x: T, y: T, z: T)
    requires WalkFromTo(g, p, x, y) && WalkFromTo(g, q, y, z)
    ensures WalkFromTo(g, p + q[1..], x, z)
  {
    var r := p + q[1..];
    forall k | 0 < k < |r|
      ensures Edge(g, r[k-1], r[k])
    {
      if k >= |p| {
        assert r[k] == q[k - |p| + 1] && r[k-1] == q[k - |p|];
      }
    }
    if |q| == 1 {
      assert r == p;
    } else {
      assert r[|r|-1] == q[|q|-1];
    }
  }

  lemma ReachesTransitive<T(!new)>(g: NeedsGraph<T>, x: T, y: T, z: T)
    requires Reaches(g, x, y) && Reaches(g, y, z)
    ensures Reaches(g, x, z)
  {
    var p :| WalkFromTo(g, p, x, y);
    var q :| WalkFromTo(g, q, y, z);
    WalkConcat(g, p, q, x, y, z);
  }

  lemma ReachesStep<T(!new)>(g: NeedsGraph<T>, x: T, y: T)
    requires Edge(g, x, y)
    ensures Reaches(g, x, y) && Reaches(g, x, x)
  {
    assert WalkFromTo(g, [x, y], x, y);
    assert WalkFromTo(g, [x], x, x);
  }

  /** A cycle is exactly an edge whose target leads back. */
  lemma CycleIsReturningEdge<T(!new)>(g: NeedsGraph<T>, x: T)
    ensures OnCycle(g, x) <==> exists y :: Edge(g, x, y) && Reaches(g, y, x)
  {
    if OnCycle(g, x) {
      var p :| IsCycleThrough(g, p, x);
      assert WalkFromTo(g, p[1..], p[1], x);
      assert Edge(g, x, p[1]) && Reaches(g, p[1], x);
    }
    if exists y :: Edge(g, x, y) && Reaches(g, y, x) {
      var y :| Edge(g, x, y) && Reaches(g, y, x);
      var q :| WalkFromTo(g, q, y, x);
      var p := [x] + q;
      assert IsCycleThrough(g, p, x);
    }
  }

  /** A set that contains every need of its members contains everything they reach. */
  lemma {:induction false} ClosedSetKeepsWalk<T(!new)>(g: NeedsGraph<T>, s: set<T>, p: seq<T>, k: nat)
    requires forall x, y | x in s && Edge(g, x, y) :: y in s
    requires IsWalk(g, p) && p[0] in s && k < |p|
    ensures p[k] in s
  {
    if k > 0 {
      ClosedSetKeepsWalk(g, s, p, k - 1);
      assert Edge(g, p[k-1], p[k]);
    }
  }

  /** Along a walk inside a closed set a decreasing rank decreases at every edge. */
  lemma {:induction false} RankBoundsWalk<T(!new)>(g: NeedsGraph<T>, rank: map<T, nat>, p: seq<T>)
    requires forall x, y | x in rank && Edge(g, x, y) :: y in rank && rank[y] < rank[x]
    requires IsWalk(g, p) && p[0] in rank
    ensures p[|p|-1] in rank && rank[p[|p|-1]] + |p| - 1 <= rank[p[0]]
    decreases |p|
  {
    if |p| > 1 {
      assert Edge(g, p[0], p[1]);
      RankBoundsWalk(g, rank, p[1..]);
    }
  }

  lemma RankedNodesReachNoCycle<T(!new)>(g: NeedsGraph<T>, rank: map<T, nat>, x: T, c: T)
    requires forall x, y | x in rank && Edge(g, x, y) :: y in rank && rank[y] < rank[x]
    requires x in rank && Reaches(g, x, c)
    ensures !OnCycle(g, c)
  {
    var p :| WalkFromTo(g, p, x, c);
    RankBoundsWalk(g, rank, p);
    if OnCycle(g, c) {
      var q :| IsCycleThrough(g, q, c);
      RankBoundsWalk(g, rank, q);
    }
  }

  lemma {:induction false} DistinctFitsInSet<T>(p: seq<T>, s: set<T>)
    requires forall k | 0 <= k < |p| :: p[k] in s
    requires forall i, j | 0 <= i < j < |p| :: p[i] != p[j]
    ensures |p| <= |s|
  {
    if |p| > 0 {
      DistinctFitsInSet(p[1..], s - {p[0]});
    }
  }

  ghost predicate HasNeedIn<T(!new)>(g: NeedsGraph<T>, s: set<T>, x: T) {
    exists y :: y in s && Edge(g, x, y)
  }

  /** Every member of s needs another member of s. */
  ghost predicate Blocked<T(!new)>(g: NeedsGraph<T>, s: set<T>) {
    forall x {:trigger HasNeedIn(g, s, x)} | x in s :: HasNeedIn(g, s, x)
  }

  lemma {:induction false} WalkInBlocked<T(!new)>(g: NeedsGraph<T>, s: set<T>, x: T, n: nat) returns (p: seq<T>)
    requires Blocked(g, s) && x in s
    ensures IsWalk(g, p) && |p| == n + 1 && p[0] == x
    ensures forall k | 0 <= k < |p| :: p[k] in s
  {
    if n == 0 {
      p := [x];
    } else {
      assert HasNeedIn(g, s, x);
      var y :| y in s && Edge(g, x, y);
      var q := WalkInBlocked(g, s, y, n - 1);
      p := [x] + q;
    }
  }

  /** From every member of a blocked set needs lead into a cycle inside the set. */
  lemma BlockedReachesCycle<T(!new)>(g: NeedsGraph<T>, s: set<T>, x: T) returns (c: T)
    requires Blocked(g, s) && x in s
    ensures c in s && Reaches(g, x, c) && OnCycle(g, c)
  {
    var p := WalkInBlocked(g, s, x, |s|);
    if forall i, j | 0 <= i < j < |p| :: p[i] != p[j] {
      DistinctFitsInSet(p, s);
      assert false;
    }
    var i, j :| 0 <= i < j < |p| && p[i] == p[j];
    c := p[i];
    assert WalkFromTo(g, p[..i+1], x, c);
    assert IsCycleThrough(g, p[i..j+1], c);
  }

  /** In an acyclic graph every non-empty set has a member that needs no other member. */
  lemma AcyclicHasMinimal<T(!new)>(g: NeedsGraph<T>, s: set<T>) returns (x: T)
    requires Acyclic(g) && s != {}
    ensures x in s && forall y | y in s :: !Edge(g, x, y)
  {
    if Blocked(g, s) {
      var z :| z in s;
      var c := BlockedReachesCycle(g, s, z);
      assert false;
    }
    x :| x in s && !HasNeedIn(g, s, x);
  }

  /** Positions in a list where every need comes earlier rule cycles out. */
  lemma OrderedIsAcyclic<T(!new)>(g: NeedsGraph<T>, rank: map<T, nat>)
    requires g.Keys <= rank.Keys
    requires forall x, y | x in rank && Edge(g, x, y) :: y in rank && rank[y] < rank[x]
    ensures Acyclic(g)
  {
    forall x
      ensures !OnCycle(g, x)
    {
      if OnCycle(g, x) {
        var p :| IsCycleThrough(g, p, x);
        assert Edge(g, p[0], p[1]);
        RankBoundsWalk(g, rank, p);
      }
    }
  }

  /** Adding the need of y to x closes a cycle exactly when y already leads to x. */
  lemma AddedNeedKeepsAcyclic<T(!new)>(g: NeedsGraph<T>, x: T, y: T)
    requires x in g && Acyclic(g)
    ensures Acyclic(g[x := g[x] + [y]]) <==> !Reaches(g, y, x)
  {
    var h := g[x := g[x] + [y]];
    assert Edge(h, x, y) by { assert h[x][|g[x]|] == y; }
    if Reaches(g, y, x) {
      var p :| WalkFromTo(g, p, y, x);
      assert WalkFromTo(h, p, y, x) by {
        forall k | 0 < k < |p|
          ensures Edge(h, p[k-1], p[k])
        {
          assert Edge(g, p[k-1], p[k]);
        }
      }
      CycleIsReturningEdge(h, x);
    } else {
      forall c
        ensures !OnCycle(h, c)
      {
        if OnCycle(h, c) {
          var p :| IsCycleThrough(h, p, c);
          CycleUsesNewEdge(g, x, y, p, c);
        }
      }
    }
  }

  /** A cycle of the extended graph gives a way back from y to x in the old one. */
  lemma CycleUsesNewEdge<T(!new)>(g: NeedsGraph<T>, x: T, y: T, p: seq<T>, c: T)
    requires x in g && Acyclic(g)
    requires IsCycleThrough(g[x := g[x] + [y]], p, c)
    ensures Reaches(g, y, x)
  {
    var h := g[x := g[x] + [y]];
    if IsWalk(g, p) {
      assert OnCycle(g, c) by { assert IsCycleThrough(g, p, c); }
      assert false;
    }
    var k :| 0 < k < |p| && !Edge(g, p[k-1], p[k]);
    assert Edge(h, p[k-1], p[k]);
    assert p[k-1] == x && p[k] == y;
    // Go round the cycle once, from y back to x.
    var round := p[k..] + p[1..k];
    assert WalkFromTo(h, p[k..], y, c);
    assert WalkFromTo(h, p[..k], c, x);
    WalkConcat(h, p[k..], p[..k], y, c, x);
    assert p[..k][1..] == p[1..k];
    OldWalkBack(g, x, y, round);
  }

  /** The part of a walk from y to x after its last use of the new edge only uses old edges. */
  lemma {:induction false} OldWalkBack<T(!new)>(g: NeedsGraph<T>, x: T, y: T, p: seq<T>)
    requires x in g && WalkFromTo(g[x := g[x] + [y]], p, y, x)
    ensures Reaches(g, y, x)
    decreases |p|
  {
    var h := g[x := g[x] + [y]];
    if IsWalk(g, p) {
      assert WalkFromTo(g, p, y, x);
    } else {
      var k :| 0 < k < |p| && !Edge(g, p[k-1], p[k]);
      assert Edge(h, p[k-1], p[k]);
      assert p[k] == y;
      assert WalkFromTo(h, p[k..], y, x);
      OldWalkBack(g, x, y, p[k..]);
    }
  }

  lemma MappedCycle<A(!new), B(!new)>(g: NeedsGraph<A>, h: NeedsGraph<B>, f: A -> B, x: A)
    requires forall x, y | Edge(g, x, y) :: Edge(h, f(x), f(y))
    requires OnCycle(g, x)
    ensures OnCycle(h, f(x))
  {
    var p :| IsCycleThrough(g, p, x);
    assert IsCycleThrough(h, seq(|p|, k requires 0 <= k < |p| => f(p[k])), f(x));
  }
}
