/** The recursive cycle finder behind slice-set validation. */
module CycleIssues {
  import opened Outcomes
  import opened Graphs
  import opened Slices

  /** v reaches id over at least one dependency. */
  ghost predicate Above(g: Graph, v: Id, id: Id) {
    exists m :: Edge(g, v, m) && Reach(g, m, id)
  }

  lemma AboveSelf(g: Graph, v: Id, id: Id)
    requires Edge(g, v, id)
    ensures Above(g, v, id)
  {
    ReachSelf(g, id);
  }

  lemma AboveStep(g: Graph, v: Id, id: Id, dep: Id)
    requires Above(g, v, id) && Edge(g, id, dep)
    ensures Above(g, v, dep)
  {
    var m :| Edge(g, v, m) && Reach(g, m, id);
    ReachEdge(g, id, dep);
    ReachTrans(g, m, id, dep);
  }

  lemma AboveSelfIsCycle(g: Graph, id: Id)
    requires Above(g, id, id)
    ensures ReachesCycle(g, id)
  {
    var m :| Edge(g, id, m) && Reach(g, m, id);
    CycleThroughEdge(g, id, m);
    ReachSelf(g, id);
  }

  lemma AboveReachesCycle(g: Graph, v: Id, id: Id)
    requires Above(g, v, id) && ReachesCycle(g, id)
    ensures ReachesCycle(g, v)
  {
    var m :| Edge(g, v, m) && Reach(g, m, id);
    ReachStep(g, v, m, id);
    ReachesCycleTrans(g, v, id);
  }

  /** Nothing finished reaches a cycle. */
  ghost predicate Clean(g: Graph, visited: set<Id>) {
    forall v :: v in visited ==> !ReachesCycle(g, v)
  }

  /** An id in progress is on the way to `id`, or was left behind by a failed visit and reaches a cycle. */
  ghost predicate InProgress(g: Graph, visiting: set<Id>, id: Id) {
    forall v :: v in visiting ==> v in g && (Above(g, v, id) || ReachesCycle(g, v))
  }

  /** Everything in progress reaches a cycle: what failed visits leave behind. */
  ghost predicate Stale(g: Graph, visiting: set<Id>) {
    forall v :: v in visiting ==> v in g && ReachesCycle(g, v)
  }

  lemma Descend(g: Graph, visiting: set<Id>, id: Id, dep: Id)
    requires InProgress(g, visiting, id) && Edge(g, id, dep)
    ensures InProgress(g, visiting + {id}, dep)
  {
    forall v | v in visiting + {id}
      ensures v in g && (Above(g, v, dep) || ReachesCycle(g, v))
    {
      if v == id {
        AboveSelf(g, v, dep);
      } else if !ReachesCycle(g, v) {
        AboveStep(g, v, id, dep);
      }
    }
  }

  lemma FailedVisitIsStale(g: Graph, visiting: set<Id>, id: Id)
    requires InProgress(g, visiting, id) && ReachesCycle(g, id)
    ensures Stale(g, visiting)
  {
    forall v | v in visiting
      ensures ReachesCycle(g, v)
    {
      if !ReachesCycle(g, v) {
        AboveReachesCycle(g, v, id);
      }
    }
  }

  /** The visit succeeds exactly when id reaches no cycle. A failed visit leaves ids in `visiting`,
      but only ids that reach a cycle, so later visits stay exact. */
  method VisitCycle(id: Id, byId: map<Id, Slice>, visiting: set<Id>, visited: set<Id>)
    returns (r: Result<(), GraphError>, visiting': set<Id>, visited': set<Id>)
    requires Clean(AllDeps(byId), visited)
    requires InProgress(AllDeps(byId), visiting, id)
    ensures r.Ok? <==> !ReachesCycle(AllDeps(byId), id)
    ensures Clean(AllDeps(byId), visited') && visited <= visited'
    ensures r.Ok? ==> visiting' == visiting
    ensures r.Err? ==> visiting <= visiting' && Stale(AllDeps(byId), visiting')
    ensures r.Err? ==> r.error.CycleInvolving? && Reach(AllDeps(byId), id, r.error.id)
                       && ReachesCycle(AllDeps(byId), r.error.id)
    decreases |byId.Keys - visiting|
  {
    ghost var g := AllDeps(byId);
    visiting', visited' := visiting, visited;
    if id in visited || id !in byId {
      AbsentReachesNothing(g, id);
      return Ok(()), visiting', visited';
    }
    if id in visiting {
      InProgressAgain(g, visiting, id);
      return Err(CycleInvolving(id)), visiting', visited';
    }
    visiting' := visiting + {id};
    SmallerSet(byId.Keys - visiting', byId.Keys - visiting, id);
    var slice := byId[id];
    for i := 0 to |slice.dependsOn|
      invariant visiting' == visiting + {id}
      invariant Clean(g, visited') && visited <= visited'
      invariant CleanDeps(g, slice.dependsOn[..i])
    {
      var dep := slice.dependsOn[i];
      assert Edge(g, id, dep);
      Descend(g, visiting, id, dep);
      r, visiting', visited' := VisitCycle(dep, byId, visiting', visited');
      if r.Err? {
        FailedBelow(g, id, dep, r.error.id);
        return;
      }
      OneMoreCleanDep(g, slice.dependsOn, i);
    }
    CleanDepsClean(byId, id);
    visiting' := visiting' - {id};
    assert visiting' == visiting;
    visited' := visited' + {id};
    r := Ok(());
  }

  lemma AbsentReachesNothing(g: Graph, id: Id)
    ensures id !in g ==> !ReachesCycle(g, id)
  {
    if id !in g && ReachesCycle(g, id) {
      ReachesCycleStep(g, id);
    }
  }

  lemma InProgressAgain(g: Graph, visiting: set<Id>, id: Id)
    requires id in visiting && InProgress(g, visiting, id)
    ensures ReachesCycle(g, id) && Reach(g, id, id) && Stale(g, visiting)
  {
    if !ReachesCycle(g, id) {
      AboveSelfIsCycle(g, id);
    }
    FailedVisitIsStale(g, visiting, id);
    ReachSelf(g, id);
  }

  lemma FailedBelow(g: Graph, id: Id, dep: Id, named: Id)
    requires Edge(g, id, dep) && ReachesCycle(g, dep) && Reach(g, dep, named)
    ensures ReachesCycle(g, id) && Reach(g, id, named)
  {
    ReachStep(g, id, dep, named);
    ReachEdge(g, id, dep);
    ReachesCycleTrans(g, id, dep);
  }

  ghost predicate CleanDeps(g: Graph, deps: seq<Id>) {
    forall i :: 0 <= i < |deps| ==> !ReachesCycle(g, deps[i])
  }

  lemma OneMoreCleanDep(g: Graph, deps: seq<Id>, i: nat)
    requires i < |deps| && CleanDeps(g, deps[..i]) && !ReachesCycle(g, deps[i])
    ensures CleanDeps(g, deps[..i + 1])
  {
    assert forall j :: 0 <= j < i ==> deps[..i + 1][j] == deps[..i][j];
  }

  lemma CleanDepsClean(byId: map<Id, Slice>, id: Id)
    requires id in byId && CleanDeps(AllDeps(byId), byId[id].dependsOn[..|byId[id].dependsOn|])
    ensures !ReachesCycle(AllDeps(byId), id)
  {
    if ReachesCycle(AllDeps(byId), id) {
      ReachesCycleStep(AllDeps(byId), id);
    }
  }

  lemma SmallerSet<T>(a: set<T>, b: set<T>, x: T)
    requires a <= b && x in b && x !in a
    ensures |a| < |b|
  {
    assert b == a + (b - a);
    assert |b| == |a| + |b - a|;
    assert x in b - a;
  }

  datatype CycleIssue = CycleIssue(sliceId: Id, error: GraphError)

  /** The ids of the slices, in list order and with repetitions, that reach a cycle. */
  ghost function CyclicIds(g: Graph, slices: seq<Slice>): seq<Id> {
    if slices == [] then []
    else
      var id := slices[|slices| - 1].id;
      CyclicIds(g, slices[..|slices| - 1]) + if ReachesCycle(g, id) then [id] else []
  }

  ghost function IssueIds(issues: seq<CycleIssue>): (ids: seq<Id>)
    ensures |ids| == |issues|
  {
    seq(|issues|, i requires 0 <= i < |issues| => issues[i].sliceId)
  }

  /** One issue for each listed slice that reaches a dependency cycle, and for no other. */
  method Find(slices: seq<Slice>) returns (issues: seq<CycleIssue>)
    ensures IssueIds(issues) == CyclicIds(AllDeps(ById(slices)), slices)
    ensures forall issue :: issue in issues ==>
                              issue.error.CycleInvolving?
                              && Reach(AllDeps(ById(slices)), issue.sliceId, issue.error.id)
                              && ReachesCycle(AllDeps(ById(slices)), issue.error.id)
    ensures issues == [] <==> Acyclic(AllDeps(ById(slices)))
  {
    var byId := ById(slices);
    ghost var g := AllDeps(byId);
    issues := [];
    var visiting, visited := {}, {};
    for i := 0 to |slices|
      invariant Clean(g, visited) && Stale(g, visiting)
      invariant IssueIds(issues) == CyclicIds(g, slices[..i])
      invariant forall issue :: issue in issues ==>
                                  issue.error.CycleInvolving? && Reach(g, issue.sliceId, issue.error.id)
                                  && ReachesCycle(g, issue.error.id)
    {
      var r;
      r, visiting, visited := VisitCycle(slices[i].id, byId, visiting, visited);
      assert slices[..i + 1][..i] == slices[..i];
      if r.Err? {
        ghost var before := issues;
        issues := issues + [CycleIssue(slices[i].id, r.error)];
        assert IssueIds(issues) == IssueIds(before) + [slices[i].id];
      }
    }
    assert slices[..|slices|] == slices;
    NoCyclicIds(slices);
  }

  lemma NoCyclicIds(slices: seq<Slice>)
    ensures CyclicIds(AllDeps(ById(slices)), slices) == [] <==> Acyclic(AllDeps(ById(slices)))
  {
    var g := AllDeps(ById(slices));
    CyclicIdsEmpty(g, slices);
    AcyclicReaches(g);
    if a :| ReachesCycle(g, a) {
      ReachesCycleStep(g, a);
      ByIdHoldsLast(slices, a);
    }
  }

  lemma {:induction false} CyclicIdsEmpty(g: Graph, slices: seq<Slice>)
    ensures CyclicIds(g, slices) == [] <==> forall i :: 0 <= i < |slices| ==> !ReachesCycle(g, slices[i].id)
  {
    if slices != [] {
      CyclicIdsEmpty(g, slices[..|slices| - 1]);
    }
  }
}
