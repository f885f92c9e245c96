/** Validation of a slice set, and what a valid set guarantees to the operations on it. */
module Validation {
  import opened Graphs
  import opened Slices
  import opened SortedIds
  import opened TopologicalOrder
  import CycleIssues
  import DependencyLayers

  datatype Issue =
    | Duplicate(id: Id, count: nat)
    | Missing(sliceId: Id, dep: Id)
    | Cyclic(sliceId: Id, error: GraphError)

  function Count(slices: seq<Slice>, id: Id): nat {
    if slices == [] then 0
    else Count(slices[..|slices| - 1], id) + if slices[|slices| - 1].id == id then 1 else 0
  }

  ghost predicate IsMissing(slices: seq<Slice>, sliceId: Id, dep: Id) {
    && dep !in Ids(slices)
    && exists i :: 0 <= i < |slices| && slices[i].id == sliceId && dep in slices[i].dependsOn
  }

  ghost predicate ValidSet(slices: seq<Slice>) {
    && Distinct(Ids(slices))
    && (forall i, d :: 0 <= i < |slices| && d in slices[i].dependsOn ==> d in Ids(slices))
    && Acyclic(AllDeps(ById(slices)))
  }

  lemma {:induction false} CountPositive(slices: seq<Slice>, id: Id)
    ensures Count(slices, id) > 0 <==> id in Ids(slices)
  {
    if slices != [] {
      var rest := slices[..|slices| - 1];
      CountPositive(rest, id);
      assert Ids(slices) == Ids(rest) + [slices[|rest|].id];
    }
  }

  lemma {:induction false} CountTwice(slices: seq<Slice>, i: nat, j: nat)
    requires i < j < |slices| && slices[i].id == slices[j].id
    ensures Count(slices, slices[j].id) > 1
  {
    var rest := slices[..|slices| - 1];
    if j < |rest| {
      CountTwice(rest, i, j);
    } else {
      CountPositive(rest, slices[i].id);
      assert Ids(rest)[i] == slices[i].id;
    }
  }

  lemma {:induction false} DistinctCounts(slices: seq<Slice>, id: Id)
    requires Distinct(Ids(slices))
    ensures Count(slices, id) <= 1
  {
    if slices != [] {
      var rest := slices[..|slices| - 1];
      assert Ids(slices) == Ids(rest) + [slices[|rest|].id];
      DistinctCounts(rest, id);
      CountPositive(rest, id);
    }
  }

  method DuplicateIssues(slices: seq<Slice>) returns (issues: seq<Issue>)
    ensures forall issue :: issue in issues <==> issue.Duplicate? && issue.count == Count(slices, issue.id) > 1
  {
    var seen: map<Id, nat> := map[];
    for i := 0 to |slices|
      invariant forall id :: id in seen <==> Count(slices[..i], id) > 0
      invariant forall id :: id in seen ==> seen[id] == Count(slices[..i], id)
    {
      assert slices[..i + 1][..i] == slices[..i];
      var id := slices[i].id;
      seen := seen[id := (if id in seen then seen[id] else 0) + 1];
    }
    assert slices[..|slices|] == slices;
    var keys := InOrder(seen.Keys);
    issues := [];
    for k := 0 to |keys|
      invariant forall issue :: issue in issues <==> issue.Duplicate? && issue.id in keys[..k]
                                                     && issue.count == Count(slices, issue.id) > 1
    {
      assert keys[k] in Members(keys);
      assert keys[..k + 1] == keys[..k] + [keys[k]];
      if seen[keys[k]] > 1 {
        issues := issues + [Duplicate(keys[k], seen[keys[k]])];
      }
    }
    assert keys[..|keys|] == keys;
    assert forall id :: id in keys <==> id in Members(keys);
  }

  method MissingIssues(slices: seq<Slice>) returns (issues: seq<Issue>)
    ensures forall issue :: issue in issues <==> issue.Missing? && IsMissing(slices, issue.sliceId, issue.dep)
  {
    var ids := set slice | slice in slices :: slice.id;
    assert forall id :: id in ids <==> id in Ids(slices);
    issues := [];
    for i := 0 to |slices|
      invariant forall issue :: issue in issues <==> MissingBefore(slices, i, issue)
    {
      var slice := slices[i];
      for k := 0 to |slice.dependsOn|
        invariant forall issue :: issue in issues <==>
                                    MissingBefore(slices, i, issue)
                                    || (issue.Missing? && issue.sliceId == slice.id && issue.dep in slice.dependsOn[..k]
                                        && issue.dep !in Ids(slices))
      {
        var dep := slice.dependsOn[k];
        assert slice.dependsOn[..k + 1] == slice.dependsOn[..k] + [dep];
        if dep !in ids {
          issues := issues + [Missing(slice.id, dep)];
        }
      }
      assert slice.dependsOn[..|slice.dependsOn|] == slice.dependsOn;
    }
  }

  ghost predicate MissingBefore(slices: seq<Slice>, n: nat, issue: Issue)
    requires n <= |slices|
  {
    && issue.Missing? && issue.dep !in Ids(slices)
    && exists i :: 0 <= i < n && slices[i].id == issue.sliceId && issue.dep in slices[i].dependsOn
  }

  method CyclicIssues(slices: seq<Slice>) returns (issues: seq<Issue>)
    ensures forall issue :: issue in issues ==> issue.Cyclic?
    ensures forall id :: (exists e :: Cyclic(id, e) in issues) <==>
                           id in Ids(slices) && ReachesCycle(AllDeps(ById(slices)), id)
    ensures issues == [] <==> Acyclic(AllDeps(ById(slices)))
  {
    var cycles := CycleIssues.Find(slices);
    issues := [];
    for i := 0 to |cycles|
      invariant |issues| == i
      invariant forall j :: 0 <= j < i ==> issues[j] == Cyclic(cycles[j].sliceId, cycles[j].error)
    {
      issues := issues + [Cyclic(cycles[i].sliceId, cycles[i].error)];
    }
    forall id
      ensures (exists e :: Cyclic(id, e) in issues) <==> id in Ids(slices) && ReachesCycle(AllDeps(ById(slices)), id)
    {
      CyclicIdsAre(AllDeps(ById(slices)), slices, id);
      if id in CycleIssues.IssueIds(cycles) {
        var j :| 0 <= j < |cycles| && cycles[j].sliceId == id;
        assert issues[j] in issues;
      }
      if e :| Cyclic(id, e) in issues {
        var j :| 0 <= j < |issues| && issues[j] == Cyclic(id, e);
        assert CycleIssues.IssueIds(cycles)[j] == id;
      }
    }
  }

  /** Reports each repeated id with its count, each dependency on an absent id, and each slice that
      reaches a dependency cycle; nothing exactly when the set is valid. */
  method ValidateSliceSet(slices: seq<Slice>) returns (issues: seq<Issue>)
    ensures issues == [] <==> ValidSet(slices)
    ensures forall id, n :: Duplicate(id, n) in issues <==> n == Count(slices, id) > 1
    ensures forall id, d :: Missing(id, d) in issues <==> IsMissing(slices, id, d)
    ensures forall id :: (exists e :: Cyclic(id, e) in issues) <==>
                           id in Ids(slices) && ReachesCycle(AllDeps(ById(slices)), id)
  {
    var duplicates := DuplicateIssues(slices);
    var missing := MissingIssues(slices);
    var cyclic := CyclicIssues(slices);
    NoDuplicates(slices, duplicates);
    NoMissing(slices, missing);
    issues := duplicates + missing + cyclic;
  }

  lemma NoDuplicates(slices: seq<Slice>, issues: seq<Issue>)
    requires forall issue :: issue in issues <==> issue.Duplicate? && issue.count == Count(slices, issue.id) > 1
    ensures issues == [] <==> Distinct(Ids(slices))
  {
    if issues != [] && Distinct(Ids(slices)) {
      assert issues[0] in issues;
      DistinctCounts(slices, issues[0].id);
    }
    if i, j :| 0 <= i < j < |slices| && Ids(slices)[i] == Ids(slices)[j] {
      CountTwice(slices, i, j);
      assert Duplicate(slices[j].id, Count(slices, slices[j].id)) in issues;
    }
  }

  lemma NoMissing(slices: seq<Slice>, issues: seq<Issue>)
    requires forall issue :: issue in issues <==> issue.Missing? && IsMissing(slices, issue.sliceId, issue.dep)
    ensures issues == [] <==> forall i, d :: 0 <= i < |slices| && d in slices[i].dependsOn ==> d in Ids(slices)
  {
    if issues != [] {
      assert issues[0] in issues;
    }
    forall i, d | 0 <= i < |slices| && d in slices[i].dependsOn && d !in Ids(slices)
      ensures issues != []
    {
      assert Missing(slices[i].id, d) in issues;
    }
  }

  lemma {:induction false} CyclicIdsAre(g: Graph, slices: seq<Slice>, id: Id)
    ensures id in CycleIssues.CyclicIds(g, slices) <==> id in Ids(slices) && ReachesCycle(g, id)
  {
    if slices != [] {
      var rest := slices[..|slices| - 1];
      CyclicIdsAre(g, rest, id);
      assert Ids(slices) == Ids(rest) + [slices[|rest|].id];
    }
  }

  // ---- what validity buys

  /** On a valid set every request of known ids can be ordered, and the closure leaves out no declared dependency. */
  lemma ValidSetOrders(slices: seq<Slice>, requested: seq<Id>)
    requires ValidSet(slices) && forall i :: 0 <= i < |requested| ==> requested[i] in Ids(slices)
    ensures Orderable(ById(slices), requested)
    ensures forall a, d :: InClosure(ById(slices), requested, a) && a in ById(slices) && d in ById(slices)[a].dependsOn ==>
                             InClosure(ById(slices), requested, d)
  {
    var byId := ById(slices);
    var g := AllDeps(byId);
    DepsPresent(slices);
    forall x | InClosure(byId, requested, x)
      ensures x in byId
    {
      if requested != [] {
        var i :| 0 <= i < |requested| && Reach(g, requested[i], x);
        ByIdHoldsLast(slices, requested[i]);
        assert Ids(slices)[..] == Ids(slices);
        ClosedUnderReach(g, g.Keys, requested[i], x);
      }
    }
    forall a, d | InClosure(byId, requested, a) && a in byId && d in byId[a].dependsOn
      ensures InClosure(byId, requested, d)
    {
      assert d in g[a];
      ClosureIsClosed(byId, requested, a, d);
    }
  }

  lemma DepsPresent(slices: seq<Slice>)
    requires forall i, d :: 0 <= i < |slices| && d in slices[i].dependsOn ==> d in Ids(slices)
    ensures forall a, d :: a in AllDeps(ById(slices)) && d in AllDeps(ById(slices))[a] ==> d in ById(slices)
  {
    forall a, d | a in AllDeps(ById(slices)) && d in AllDeps(ById(slices))[a]
      ensures d in ById(slices)
    {
      ByIdHoldsLast(slices, a);
      ByIdHoldsLast(slices, d);
      var i :| 0 <= i < |slices| && slices[i].id == a && ById(slices)[a] == slices[i];
      assert d in Ids(slices);
    }
  }

  /** On a valid set, workers started layer by layer find every declared dependency in an earlier layer. */
  lemma ValidSetLayers(slices: seq<Slice>, layers: seq<seq<Slice>>, k: nat, slice: Slice, dep: Id)
    requires ValidSet(slices) && DependencyLayers.Layering(ById(slices), layers)
    requires k < |layers| && slice in layers[k] && dep in slice.dependsOn
    ensures exists j :: 0 <= j < k && dep in Ids(layers[j])
  {
    var byId := ById(slices);
    var g := SelectedDeps(byId, byId.Keys);
    DepsPresent(slices);
    assert DependencyLayers.IsLayer(byId, k, layers[k]);
    var i :| 0 <= i < |layers[k]| && layers[k][i] == slice;
    assert Ids(layers[k])[i] in Ids(layers[k]);
    assert Edge(AllDeps(byId), slice.id, dep) && Edge(g, slice.id, dep);
    ChainsOfSuccessor(g, slice.id, dep, k);
    var n := ChainLength(g, dep, k);
    assert DependencyLayers.IsLayer(byId, n - 1, layers[n - 1]);
  }

  /** Bounded chains have a longest one. */
  lemma {:induction false} ChainLength(g: Graph, a: Id, bound: nat) returns (n: nat)
    requires ChainsAtMost(g, a, bound)
    ensures 0 < n <= bound && LongestChain(g, a, n)
  {
    assert IsPath(g, [a]);
    if p :| IsPath(g, p) && p[0] == a && |p| == bound {
      n := bound;
    } else {
      n := ChainLength(g, a, bound - 1);
    }
  }
}
