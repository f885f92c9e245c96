/** The dependency closure of a request and its depth-first topological order. */
module TopologicalOrder {
  import opened Outcomes
  import opened Graphs
  import opened Slices
  import opened SortedIds
  import opened CycleIssues
  import Collections

  ghost predicate KeyedById(byId: map<Id, Slice>) {
    forall id :: id in byId ==> byId[id].id == id
  }

  // ---- the closure of a request

  /** x belongs to the least set that contains the request and the dependencies of its members;
      an empty request asks for every slice. */
  ghost predicate InClosure(byId: map<Id, Slice>, requested: seq<Id>, x: Id) {
    if requested == [] then x in byId
    else exists i :: 0 <= i < |requested| && Reach(AllDeps(byId), requested[i], x)
  }

  /** The members of `wanted`, those in `unfinished` apart, have their dependencies in it. */
  ghost predicate ClosedExcept(g: Graph, wanted: set<Id>, unfinished: set<Id>) {
    wanted <= g.Keys && forall w :: w in wanted && w !in unfinished ==> g[w] <= wanted
  }

  method CollectWithDependencies(id: Id, byId: map<Id, Slice>, wanted: set<Id>, ghost unfinished: set<Id>)
    returns (r: Result<(), GraphError>, wanted': set<Id>)
    requires KeyedById(byId) && ClosedExcept(AllDeps(byId), wanted, unfinished)
    ensures r.Ok? ==> id in wanted' && wanted <= wanted' && ClosedExcept(AllDeps(byId), wanted', unfinished)
    ensures r.Ok? ==> forall w :: w in wanted' && w !in wanted ==> Reach(AllDeps(byId), id, w)
    ensures r.Err? ==> r.error.NotFound? && r.error.id !in byId && Reach(AllDeps(byId), id, r.error.id)
    decreases |byId.Keys - wanted|
  {
    ghost var g := AllDeps(byId);
    wanted' := wanted;
    ReachSelf(g, id);
    if id !in byId {
      return Err(NotFound(id)), wanted';
    }
    var slice := byId[id];
    if slice.id in wanted' {
      return Ok(()), wanted';
    }
    wanted' := wanted' + {slice.id};
    SmallerSet(byId.Keys - wanted', byId.Keys - wanted, id);
    for i := 0 to |slice.dependsOn|
      invariant wanted + {id} <= wanted' && ClosedExcept(g, wanted', unfinished + {id})
      invariant forall w :: w in wanted' && w !in wanted ==> Reach(g, id, w)
      invariant forall j :: 0 <= j < i ==> slice.dependsOn[j] in wanted'
      invariant |byId.Keys - wanted'| < |byId.Keys - wanted|
    {
      var dep := slice.dependsOn[i];
      assert Edge(g, id, dep);
      ghost var before := wanted';
      r, wanted' := CollectWithDependencies(dep, byId, wanted', unfinished + {id});
      if r.Err? {
        ReachStep(g, id, dep, r.error.id);
        return;
      }
      forall w | w in wanted' && w !in before
        ensures Reach(g, id, w)
      {
        ReachStep(g, id, dep, w);
      }
      Collections.SubsetSize(byId.Keys - wanted', byId.Keys - before);
    }
    r := Ok(());
  }

  /** The closure of the request, unless it runs into an id that no slice has. */
  method WantedSliceIds(slices: seq<Slice>, requested: seq<Id>, byId: map<Id, Slice>)
    returns (r: Result<set<Id>, GraphError>)
    requires byId == ById(slices)
    ensures r.Ok? ==> forall x :: x in r.value <==> InClosure(byId, requested, x)
    ensures r.Ok? ==> r.value <= byId.Keys
    ensures r.Err? ==> r.error.NotFound? && r.error.id !in byId && InClosure(byId, requested, r.error.id)
  {
    ghost var g := AllDeps(byId);
    ByIdKeepsIds(slices);
    var wanted := {};
    if requested == [] {
      for i := 0 to |slices|
        invariant forall x :: x in wanted <==> exists j :: 0 <= j < i && slices[j].id == x
      {
        wanted := wanted + {slices[i].id};
      }
      forall x
        ensures x in wanted <==> x in byId
      {
        ByIdHoldsLast(slices, x);
      }
    } else {
      for i := 0 to |requested|
        invariant ClosedExcept(g, wanted, {})
        invariant forall j :: 0 <= j < i ==> requested[j] in wanted
        invariant forall w :: w in wanted ==> InClosure(byId, requested, w)
      {
        var collected;
        collected, wanted := CollectWithDependencies(requested[i], byId, wanted, {});
        if collected.Err? {
          return Err(collected.error);
        }
      }
      forall x | InClosure(byId, requested, x)
        ensures x in wanted
      {
        var i :| 0 <= i < |requested| && Reach(g, requested[i], x);
        ClosedUnderReach(g, wanted, requested[i], x);
      }
    }
    r := Ok(wanted);
  }

  lemma ClosureIsClosed(byId: map<Id, Slice>, requested: seq<Id>, a: Id, d: Id)
    requires a in byId && InClosure(byId, requested, a) && d in byId[a].dependsOn && d in byId
    ensures InClosure(byId, requested, d)
  {
    var g := AllDeps(byId);
    assert Edge(g, a, d);
    if requested != [] {
      var i :| 0 <= i < |requested| && Reach(g, requested[i], a);
      ReachEdge(g, a, d);
      ReachTrans(g, requested[i], a, d);
    }
  }

  // ---- depth-first order

  /** `ordered` lists exactly the visited slices, each once and after its selected dependencies. */
  ghost predicate Listed(byId: map<Id, Slice>, wanted: set<Id>, visited: set<Id>, ordered: seq<Slice>) {
    && Ordered(SelectedDeps(byId, wanted), Ids(ordered))
    && Distinct(Ids(ordered))
    && Members(Ids(ordered)) == visited
    && forall i :: 0 <= i < |ordered| ==> ordered[i].id in byId && ordered[i] == byId[ordered[i].id]
  }

  lemma ListOneMore(byId: map<Id, Slice>, wanted: set<Id>, visited: set<Id>, ordered: seq<Slice>, id: Id)
    requires Listed(byId, wanted, visited, ordered) && KeyedById(byId)
    requires id !in visited && id in SelectedDeps(byId, wanted) && SelectedDeps(byId, wanted)[id] <= visited
    ensures Listed(byId, wanted, visited + {id}, ordered + [byId[id]])
  {
    var before, after := Ids(ordered), Ids(ordered + [byId[id]]);
    assert after == before + [id];
    MembersAppend(before, id);
    forall i | 0 <= i < |after|
      ensures after[i] in SelectedDeps(byId, wanted) && SelectedDeps(byId, wanted)[after[i]] <= Members(after[..i])
    {
      assert after[..i] == before[..i];
      if i == |before| {
        assert before[..i] == before;
      }
    }
    forall i | 0 <= i < |before|
      ensures before[i] != id
    {
      assert before[i] in Members(before);
    }
  }

  /** The ids in progress are not finished, and all lead to `id`. */
  ghost predicate OnStack(g: Graph, visiting: set<Id>, visited: set<Id>, id: Id) {
    visiting !! visited && forall v :: v in visiting ==> v in g && Above(g, v, id)
  }

  lemma StackDescends(g: Graph, visiting: set<Id>, visited: set<Id>, id: Id, dep: Id)
    requires OnStack(g, visiting, visited, id) && id !in visited && Edge(g, id, dep)
    ensures OnStack(g, visiting + {id}, visited, dep)
  {
    forall v | v in visiting + {id}
      ensures Above(g, v, dep)
    {
      if v == id {
        AboveSelf(g, v, dep);
      } else {
        AboveStep(g, v, id, dep);
      }
    }
  }

  lemma StackMeetsItself(g: Graph, visiting: set<Id>, visited: set<Id>, id: Id)
    requires OnStack(g, visiting, visited, id) && id in visiting
    ensures OnCycle(g, id)
  {
    var m :| Edge(g, id, m) && Reach(g, m, id);
    CycleThroughEdge(g, id, m);
  }

  ghost predicate Handled(deps: seq<Id>, wanted: set<Id>, visited: set<Id>) {
    forall j :: 0 <= j < |deps| && deps[j] in wanted ==> deps[j] in visited
  }

  lemma HandleOneMore(deps: seq<Id>, i: nat, wanted: set<Id>, before: set<Id>, after: set<Id>)
    requires i < |deps| && Handled(deps[..i], wanted, before)
    requires before <= after && (deps[i] in wanted ==> deps[i] in after)
    ensures Handled(deps[..i + 1], wanted, after)
  {
    assert forall j :: 0 <= j < i ==> deps[..i + 1][j] == deps[..i][j];
  }

  method VisitOrdered(id: Id, byId: map<Id, Slice>, wanted: set<Id>,
                      visiting: set<Id>, visited: set<Id>, ordered: seq<Slice>)
    returns (r: Result<(), GraphError>, visiting': set<Id>, visited': set<Id>, ordered': seq<Slice>)
    requires KeyedById(byId) && id in wanted
    requires Listed(byId, wanted, visited, ordered)
    requires OnStack(SelectedDeps(byId, wanted), visiting, visited, id)
    ensures r.Ok? ==> id in visited' && visited <= visited' && ordered <= ordered'
    ensures r.Ok? ==> visiting' == visiting && visiting !! visited' && Listed(byId, wanted, visited', ordered')
    ensures r.Err? ==> match r.error
                       case NotFound(x) => x in wanted && x !in byId
                       case CycleInvolving(x) => OnCycle(SelectedDeps(byId, wanted), x)
                       case NothingReady => false
    decreases |byId.Keys - visiting|
  {
    ghost var g := SelectedDeps(byId, wanted);
    visiting', visited', ordered' := visiting, visited, ordered;
    if id in visited {
      return Ok(()), visiting', visited', ordered';
    }
    if id in visiting {
      StackMeetsItself(g, visiting, visited, id);
      return Err(CycleInvolving(id)), visiting', visited', ordered';
    }
    visiting' := visiting + {id};
    if id !in byId {
      return Err(NotFound(id)), visiting', visited', ordered';
    }
    SmallerSet(byId.Keys - visiting', byId.Keys - visiting, id);
    var slice := byId[id];
    for i := 0 to |slice.dependsOn|
      invariant visiting' == visiting + {id} && visiting' !! visited'
      invariant visited <= visited' && ordered <= ordered'
      invariant Listed(byId, wanted, visited', ordered')
      invariant Handled(slice.dependsOn[..i], wanted, visited')
    {
      var dep := slice.dependsOn[i];
      ghost var before := visited';
      if dep in wanted {
        assert Edge(g, id, dep);
        StackDescends(g, visiting, visited', id, dep);
        r, visiting', visited', ordered' := VisitOrdered(dep, byId, wanted, visiting', visited', ordered');
        if r.Err? {
          return;
        }
      }
      HandleOneMore(slice.dependsOn, i, wanted, before, visited');
    }
    assert slice.dependsOn[..|slice.dependsOn|] == slice.dependsOn;
    assert g[id] <= visited';
    ListOneMore(byId, wanted, visited', ordered', id);
    visiting' := visiting' - {id};
    assert visiting' == visiting;
    visited' := visited' + {id};
    ordered' := ordered' + [slice];
    r := Ok(());
  }

  /** Every member of the closure is a slice, and none is on a dependency cycle. */
  ghost predicate Orderable(byId: map<Id, Slice>, requested: seq<Id>) {
    forall x :: InClosure(byId, requested, x) ==> x in byId && !OnCycle(AllDeps(byId), x)
  }

  /** The members of the closure, each once, as collected, and after their dependencies inside the closure. */
  ghost predicate OrdersClosure(byId: map<Id, Slice>, requested: seq<Id>, order: seq<Slice>) {
    && Distinct(Ids(order))
    && (forall x :: x in Ids(order) <==> InClosure(byId, requested, x))
    && (forall i :: 0 <= i < |order| ==> order[i].id in byId && order[i] == byId[order[i].id])
    && (forall i, d :: 0 <= i < |order| && d in order[i].dependsOn && InClosure(byId, requested, d) ==>
                         d in Ids(order[..i]))
  }

  /** An order of the request's closure, or an error exactly when the closure has an unknown id or a cycle. */
  method TopologicalOrder(slices: seq<Slice>, requested: seq<Id>) returns (r: Result<seq<Slice>, GraphError>)
    ensures r.Ok? <==> Orderable(ById(slices), requested)
    ensures r.Ok? ==> OrdersClosure(ById(slices), requested, r.value)
    ensures r.Err? ==> match r.error
                       case NotFound(x) => InClosure(ById(slices), requested, x) && x !in ById(slices)
                       case CycleInvolving(x) => InClosure(ById(slices), requested, x) && OnCycle(AllDeps(ById(slices)), x)
                       case NothingReady => false
  {
    var byId := ById(slices);
    ByIdKeepsIds(slices);
    var collected := WantedSliceIds(slices, requested, byId);
    if collected.Err? {
      return Err(collected.error);
    }
    var wanted := collected.value;
    r := OrderWanted(byId, wanted);
    ClosureCycles(byId, requested, wanted);
    if r.Ok? {
      ListedAll(byId, requested, wanted, r.value);
    }
  }

  method OrderWanted(byId: map<Id, Slice>, wanted: set<Id>) returns (r: Result<seq<Slice>, GraphError>)
    requires KeyedById(byId) && wanted <= byId.Keys
    ensures r.Ok? ==> Listed(byId, wanted, wanted, r.value)
    ensures r.Err? ==> r.error.CycleInvolving? && OnCycle(SelectedDeps(byId, wanted), r.error.id)
  {
    var keys := InOrder(wanted);
    var ordered, visiting, visited := [], {}, {};
    for k := 0 to |keys|
      invariant visiting == {} && Listed(byId, wanted, visited, ordered)
      invariant Members(keys[..k]) <= visited
    {
      assert keys[k] in Members(keys);
      var visit;
      visit, visiting, visited, ordered := VisitOrdered(keys[k], byId, wanted, visiting, visited, ordered);
      if visit.Err? {
        return Err(visit.error);
      }
      assert keys[..k + 1] == keys[..k] + [keys[k]];
      MembersAppend(keys[..k], keys[k]);
    }
    assert keys[..|keys|] == keys;
    ListedAreWanted(byId, wanted, visited, ordered);
    r := Ok(ordered);
  }

  lemma ListedAreWanted(byId: map<Id, Slice>, wanted: set<Id>, visited: set<Id>, ordered: seq<Slice>)
    requires Listed(byId, wanted, visited, ordered)
    ensures visited <= wanted
  {
    assert forall i :: 0 <= i < |ordered| ==> Ids(ordered)[i] in SelectedDeps(byId, wanted);
  }

  lemma ListedAll(byId: map<Id, Slice>, requested: seq<Id>, wanted: set<Id>, ordered: seq<Slice>)
    requires forall x :: x in wanted <==> InClosure(byId, requested, x)
    requires wanted <= byId.Keys && Listed(byId, wanted, wanted, ordered)
    ensures OrdersClosure(byId, requested, ordered)
    ensures Acyclic(SelectedDeps(byId, wanted))
  {
    var g, ids := SelectedDeps(byId, wanted), Ids(ordered);
    assert g.Keys == wanted;
    forall x
      ensures x in ids <==> x in wanted
    {
      assert x in ids <==> x in Members(ids);
    }
    assert Members(ids) == g.Keys;
    OrderedIsAcyclic(g, ids);
    forall i, d | 0 <= i < |ordered| && d in ordered[i].dependsOn && InClosure(byId, requested, d)
      ensures d in Ids(ordered[..i])
    {
      assert ids[i] in g && d in g[ids[i]];
      assert Ids(ordered[..i]) == ids[..i];
      assert d in Members(ids[..i]);
    }
  }

  lemma ClosureCycles(byId: map<Id, Slice>, requested: seq<Id>, wanted: set<Id>)
    requires forall x :: x in wanted <==> InClosure(byId, requested, x)
    requires wanted <= byId.Keys
    ensures Acyclic(SelectedDeps(byId, wanted)) <==> Orderable(byId, requested)
    ensures forall x :: OnCycle(SelectedDeps(byId, wanted), x) ==> x in wanted && OnCycle(AllDeps(byId), x)
  {
    forall a, d | a in wanted && d in byId[a].dependsOn && d in byId
      ensures d in wanted
    {
      ClosureIsClosed(byId, requested, a, d);
    }
    ClosedSelectionKeepsCycles(byId, wanted);
    var kept := SelectedDeps(byId, wanted);
    forall x | OnCycle(kept, x)
      ensures x in wanted && OnCycle(AllDeps(byId), x)
    {
      var p :| Connects(kept, p, x, x) && |p| > 1;
      assert Edge(kept, p[1 - 1], p[1]);
      SubgraphCycle(kept, AllDeps(byId), x);
    }
  }

  /** Without a request only a cycle can be in the way. */
  lemma OrderableAll(byId: map<Id, Slice>)
    ensures Orderable(byId, []) <==> Acyclic(AllDeps(byId))
  {
    forall c | OnCycle(AllDeps(byId), c)
      ensures c in byId
    {
      var p :| Connects(AllDeps(byId), p, c, c) && |p| > 1;
      assert Edge(AllDeps(byId), p[1 - 1], p[1]);
    }
    assert forall x :: x in byId ==> InClosure(byId, [], x);
  }
}
