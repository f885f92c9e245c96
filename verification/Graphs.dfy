/** Directed graphs over slice ids: paths, reachability, cycles, chain length and dependency order.
    A successor need not be a key of the graph: it is then a vertex without outgoing edges. */
module Graphs {

  type Id = string
  type Graph = map<Id, set<Id>>

  ghost predicate Edge(g: Graph, a: Id, b: Id) {
    a in g && b in g[a]
  }

  /** Every vertex of p but the first is a successor of the vertex before it. */
  ghost predicate IsPath(g: Graph, p: seq<Id>) {
    |p| > 0 && forall i :: 0 < i < |p| ==> Edge(g, p[i - 1], p[i])
  }

  ghost predicate Connects(g: Graph, p: seq<Id>, a: Id, b: Id) {
    IsPath(g, p) && p[0] == a && p[|p| - 1] == b
  }

  ghost predicate Reach(g: Graph, a: Id, b: Id) {
    exists p :: Connects(g, p, a, b)
  }

  ghost predicate OnCycle(g: Graph, c: Id) {
    exists p :: Connects(g, p, c, c) && |p| > 1
  }

  ghost predicate ReachesCycle(g: Graph, a: Id) {
    exists c :: Reach(g, a, c) && OnCycle(g, c)
  }

  ghost predicate Acyclic(g: Graph) {
    forall c :: !OnCycle(g, c)
  }

  /** ids lists vertices so that every successor of a listed vertex is listed before it. */
  ghost predicate Ordered(g: Graph, ids: seq<Id>) {
    forall i :: 0 <= i < |ids| ==> ids[i] in g && g[ids[i]] <= Members(ids[..i])
  }

  ghost predicate Distinct<T>(s: seq<T>) {
    forall i, j :: 0 <= i < j < |s| ==> s[i] != s[j]
  }

  ghost function Members<T>(s: seq<T>): set<T> {
    set x | x in s
  }

  /** No chain of dependencies starting at a has more than n vertices. */
  ghost predicate ChainsAtMost(g: Graph, a: Id, n: nat) {
    forall p :: IsPath(g, p) && p[0] == a ==> |p| <= n
  }

  /** The longest chain of dependencies starting at a has exactly n vertices. */
  ghost predicate LongestChain(g: Graph, a: Id, n: nat) {
    ChainsAtMost(g, a, n) && exists p :: IsPath(g, p) && p[0] == a && |p| == n
  }

  lemma MembersAppend<T>(s: seq<T>, x: T)
    ensures Members(s + [x]) == Members(s) + {x}
  {
    assert x == (s + [x])[|s|];
    forall y | y in s
      ensures y in s + [x]
    {
    }
  }

  // ---- reachability

  lemma ReachSelf(g: Graph, a: Id)
    ensures Reach(g, a, a)
  {
    assert Connects(g, [a], a, a);
  }

  lemma ReachStep(g: Graph, a: Id, b: Id, c: Id)
    requires Edge(g, a, b) && Reach(g, b, c)
    ensures Reach(g, a, c)
  {
    var p :| Connects(g, p, b, c);
    assert Connects(g, [a] + p, a, c);
  }

  lemma ReachEdge(g: Graph, a: Id, b: Id)
    requires Edge(g, a, b)
    ensures Reach(g, a, b)
  {
    ReachSelf(g, b);
    ReachStep(g, a, b, b);
  }

  lemma ReachTrans(g: Graph, a: Id, b: Id, c: Id)
    requires Reach(g, a, b) && Reach(g, b, c)
    ensures Reach(g, a, c)
  {
    var p :| Connects(g, p, a, b);
    var q :| Connects(g, q, b, c);
    JoinPaths(g, p, q, a, b, c);
  }

  lemma JoinPaths(g: Graph, p: seq<Id>, q: seq<Id>, a: Id, b: Id, c: Id)
    requires Connects(g, p, a, b) && Connects(g, q, b, c)
    ensures Connects(g, p + q[1..], a, c)
  {
    var r := p + q[1..];
    forall i | 0 < i < |r|
      ensures Edge(g, r[i - 1], r[i])
    {
      if i >= |p| {
        var j := i - |p| + 1;
        assert r[i] == q[j] && r[i - 1] == q[j - 1];
      }
    }
  }

  lemma CycleThroughEdge(g: Graph, a: Id, b: Id)
    requires Edge(g, a, b) && Reach(g, b, a)
    ensures OnCycle(g, a)
  {
    var p :| Connects(g, p, b, a);
    assert Connects(g, [a] + p, a, a);
  }

  lemma ReachesCycleTrans(g: Graph, a: Id, b: Id)
    requires Reach(g, a, b) && ReachesCycle(g, b)
    ensures ReachesCycle(g, a)
  {
    var c :| Reach(g, b, c) && OnCycle(g, c);
    ReachTrans(g, a, b, c);
  }

  /** Reaching a cycle means having a successor that reaches one. */
  lemma ReachesCycleStep(g: Graph, a: Id)
    requires ReachesCycle(g, a)
    ensures exists b :: Edge(g, a, b) && ReachesCycle(g, b)
  {
    var c :| Reach(g, a, c) && OnCycle(g, c);
    var p :| Connects(g, p, a, c);
    var q := p;
    if |p| == 1 {
      q :| Connects(g, q, c, c) && |q| > 1;
    }
    assert Edge(g, a, q[1]) by { assert Edge(g, q[1 - 1], q[1]); }
    assert Connects(g, q[1..], q[1], c);
    assert ReachesCycle(g, q[1]);
  }

  lemma AcyclicReaches(g: Graph)
    ensures Acyclic(g) <==> forall a :: !ReachesCycle(g, a)
  {
    if !Acyclic(g) {
      var c :| OnCycle(g, c);
      ReachSelf(g, c);
      assert ReachesCycle(g, c);
    }
  }

  /** A set that contains a and every successor of its members contains all that a reaches. */
  lemma ClosedUnderReach(g: Graph, closed: set<Id>, a: Id, b: Id)
    requires a in closed && Reach(g, a, b)
    requires forall x :: x in closed && x in g ==> g[x] <= closed
    ensures b in closed
  {
    var p :| Connects(g, p, a, b);
    ClosedAlongPath(g, closed, p, |p| - 1);
  }

  lemma {:induction false} ClosedAlongPath(g: Graph, closed: set<Id>, p: seq<Id>, i: nat)
    requires IsPath(g, p) && p[0] in closed && i < |p|
    requires forall x :: x in closed && x in g ==> g[x] <= closed
    ensures p[i] in closed
  {
    if i > 0 {
      ClosedAlongPath(g, closed, p, i - 1);
      assert Edge(g, p[i - 1], p[i]);
    }
  }

  // ---- subgraphs

  /** Every edge of h is an edge of g. */
  ghost predicate Subgraph(h: Graph, g: Graph) {
    forall a, b :: Edge(h, a, b) ==> Edge(g, a, b)
  }

  lemma SubgraphPath(h: Graph, g: Graph, p: seq<Id>)
    requires Subgraph(h, g) && IsPath(h, p)
    ensures IsPath(g, p)
  {
  }

  lemma SubgraphCycle(h: Graph, g: Graph, c: Id)
    requires Subgraph(h, g) && OnCycle(h, c)
    ensures OnCycle(g, c)
  {
    var p :| Connects(h, p, c, c) && |p| > 1;
    SubgraphPath(h, g, p);
    assert Connects(g, p, c, c);
  }

  // ---- dependency order

  lemma OrderedIsAcyclic(g: Graph, ids: seq<Id>)
    requires Ordered(g, ids) && Distinct(ids) && Members(ids) == g.Keys
    ensures Acyclic(g)
  {
    forall c
      ensures !OnCycle(g, c)
    {
      if OnCycle(g, c) {
        var p :| Connects(g, p, c, c) && |p| > 1;
        assert Edge(g, p[1 - 1], p[1]);
        var i :| 0 <= i < |ids| && ids[i] == c;
        OrderedDescends(g, ids, p, i, |p| - 1);
      }
    }
  }

  /** A path through an ordered listing moves strictly towards its front. */
  lemma {:induction false} OrderedDescends(g: Graph, ids: seq<Id>, p: seq<Id>, i: nat, k: nat)
    requires Ordered(g, ids) && Distinct(ids) && IsPath(g, p) && 0 < k < |p|
    requires i < |ids| && ids[i] == p[0]
    ensures exists j :: 0 <= j < i && ids[j] == p[k]
  {
    assert Edge(g, p[k - 1], p[k]);
    if k == 1 {
      assert p[1] in Members(ids[..i]);
    } else {
      OrderedDescends(g, ids, p, i, k - 1);
      var j :| 0 <= j < i && ids[j] == p[k - 1];
      assert p[k] in Members(ids[..j]);
    }
  }

  // ---- chains

  lemma ChainsFromSuccessors(g: Graph, a: Id, n: nat)
    requires a in g
    requires forall b :: b in g[a] ==> ChainsAtMost(g, b, n)
    ensures ChainsAtMost(g, a, n + 1)
  {
    forall p | IsPath(g, p) && p[0] == a
      ensures |p| <= n + 1
    {
      if |p| > 1 {
        assert Edge(g, p[1 - 1], p[1]);
        assert IsPath(g, p[1..]) by { TailIsPath(g, p); }
      }
    }
  }

  lemma TailIsPath(g: Graph, p: seq<Id>)
    requires IsPath(g, p) && |p| > 1
    ensures IsPath(g, p[1..])
  {
    var q := p[1..];
    forall i | 0 < i < |q|
      ensures Edge(g, q[i - 1], q[i])
    {
      assert Edge(g, p[i + 1 - 1], p[i + 1]);
    }
  }

  lemma ChainsOfSuccessor(g: Graph, a: Id, b: Id, n: nat)
    requires Edge(g, a, b) && ChainsAtMost(g, a, n + 1)
    ensures ChainsAtMost(g, b, n)
  {
    forall p | IsPath(g, p) && p[0] == b
      ensures |p| <= n
    {
      assert IsPath(g, [a] + p);
    }
  }

  /** On a cycle there are chains of every length. */
  lemma {:induction false} CycleChains(g: Graph, c: Id, n: nat)
    requires OnCycle(g, c)
    ensures exists p :: Connects(g, p, c, c) && |p| > n
  {
    var q :| Connects(g, q, c, c) && |q| > 1;
    if n > 0 {
      CycleChains(g, c, n - 1);
      var p :| Connects(g, p, c, c) && |p| > n - 1;
      JoinPaths(g, p, q, c, c, c);
      assert Connects(g, p + q[1..], c, c);
    }
  }

  lemma BoundedChainsNoCycle(g: Graph, c: Id, n: nat)
    requires ChainsAtMost(g, c, n)
    ensures !OnCycle(g, c)
  {
    if OnCycle(g, c) {
      CycleChains(g, c, n);
    }
  }

  // ---- a non-empty set in which everybody has a successor contains a cycle

  ghost predicate HasSuccessorIn(g: Graph, s: set<Id>, a: Id) {
    exists b :: b in s && Edge(g, a, b)
  }

  ghost predicate NoSink(g: Graph, s: set<Id>) {
    forall a {:trigger HasSuccessorIn(g, s, a)} :: a in s ==> HasSuccessorIn(g, s, a)
  }

  lemma {:induction false} WalkInside(g: Graph, s: set<Id>, a: Id, n: nat) returns (p: seq<Id>)
    requires a in s && NoSink(g, s)
    ensures IsPath(g, p) && |p| == n + 1
    ensures forall i :: 0 <= i < |p| ==> p[i] in s
  {
    if n == 0 {
      p := [a];
    } else {
      var q := WalkInside(g, s, a, n - 1);
      var last := q[|q| - 1];
      assert HasSuccessorIn(g, s, last);
      var b :| b in s && Edge(g, last, b);
      p := q + [b];
      ExtendPath(g, q, b);
    }
  }

  lemma ExtendPath(g: Graph, p: seq<Id>, b: Id)
    requires IsPath(g, p) && Edge(g, p[|p| - 1], b)
    ensures IsPath(g, p + [b])
  {
    var q := p + [b];
    forall i | 0 < i < |q|
      ensures Edge(g, q[i - 1], q[i])
    {
      assert i < |p| ==> q[i - 1] == p[i - 1] && q[i] == p[i];
    }
  }

  lemma {:induction false} Pigeonhole(p: seq<Id>, s: set<Id>)
    requires Distinct(p) && forall i :: 0 <= i < |p| ==> p[i] in s
    ensures |p| <= |s|
  {
    if |p| > 0 {
      Pigeonhole(p[..|p| - 1], s - {p[|p| - 1]});
    }
  }

  lemma SliceIsPath(g: Graph, p: seq<Id>, i: nat, j: nat)
    requires IsPath(g, p) && i < j < |p|
    ensures IsPath(g, p[i..j + 1])
  {
    var q := p[i..j + 1];
    forall k | 0 < k < |q|
      ensures Edge(g, q[k - 1], q[k])
    {
      assert Edge(g, p[i + k - 1], p[i + k]);
    }
  }

  lemma NoSinkHasCycle(g: Graph, s: set<Id>)
    requires s != {} && NoSink(g, s)
    ensures exists c :: c in s && OnCycle(g, c)
  {
    var a :| a in s;
    var p := WalkInside(g, s, a, |s|);
    if Distinct(p) {
      Pigeonhole(p, s);
    }
    var i, j :| 0 <= i < j < |p| && p[i] == p[j];
    SliceIsPath(g, p, i, j);
    assert Connects(g, p[i..j + 1], p[i], p[i]);
  }
}
