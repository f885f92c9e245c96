/** Layers of slices that may run in parallel, and the agreement of the three graph algorithms. */
module DependencyLayers {
  import opened Outcomes
  import opened Graphs
  import opened Slices
  import opened SortedIds
  import opened TopologicalOrder
  import CycleIssues

  /** Layer k holds, sorted by id, exactly the slices whose longest chain of selected dependencies has k + 1 members. */
  ghost predicate IsLayer(byId: map<Id, Slice>, k: nat, layer: seq<Slice>) {
    && layer != [] && Sorted(Ids(layer))
    && (forall x :: x in Ids(layer) <==> x in byId && LongestChain(SelectedDeps(byId, byId.Keys), x, k + 1))
    && forall i :: 0 <= i < |layer| ==> layer[i].id in byId && layer[i] == byId[layer[i].id]
  }

  ghost predicate AllLayers(byId: map<Id, Slice>, layers: seq<seq<Slice>>) {
    forall k :: 0 <= k < |layers| ==> IsLayer(byId, k, layers[k])
  }

  ghost predicate Layering(byId: map<Id, Slice>, layers: seq<seq<Slice>>) {
    && AllLayers(byId, layers)
    && forall x :: x in byId ==> ChainsAtMost(SelectedDeps(byId, byId.Keys), x, |layers|)
  }

  /** The pending ids, in key order, whose selected dependencies are all completed. */
  method ReadyIds(ghost byId: map<Id, Slice>, pending: map<Id, Slice>, selected: set<Id>, completed: set<Id>)
    returns (ready: seq<Id>)
    requires KeyedById(byId) && selected == byId.Keys
    requires Within(byId, pending)
    ensures Sorted(ready)
    ensures forall x :: x in ready <==> x in pending && !Waiting(byId, completed, x)
  {
    var keys := InOrder(pending.Keys);
    ready := [];
    for k := 0 to |keys|
      invariant Sorted(ready)
      invariant forall i, j :: 0 <= i < |ready| && k <= j < |keys| ==> Less(ready[i], keys[j])
      invariant forall x :: x in ready <==> x in keys[..k] && !Waiting(byId, completed, x)
    {
      assert keys[k] in Members(keys);
      var slice := pending[keys[k]];
      if forall d | d in slice.dependsOn :: d in selected ==> d in completed {
        ready := ready + [slice.id];
      }
      assert keys[..k + 1] == keys[..k] + [keys[k]];
    }
    assert keys[..|keys|] == keys;
    assert forall x :: x in pending <==> x in Members(keys);
  }

  /** Layers the slices, or fails exactly when the selected slices have a cycle among themselves. */
  method Layers(slices: seq<Slice>) returns (r: Result<seq<seq<Slice>>, GraphError>)
    ensures r.Ok? <==> Acyclic(SelectedDeps(ById(slices), ById(slices).Keys))
    ensures r.Ok? ==> Layering(ById(slices), r.value)
    ensures r.Err? ==> r.error.NothingReady?
  {
    var byId := ById(slices);
    ByIdKeepsIds(slices);
    var pending := byId;
    var selected := pending.Keys;
    var completed: set<Id> := {};
    var layers: seq<seq<Slice>> := [];
    NothingCompletedYet(byId);
    while pending != map[]
      invariant Within(byId, pending) && AllLayers(byId, layers)
      invariant Progress(byId, pending.Keys, completed, |layers|)
      decreases |pending|
    {
      var layer;
      layer, pending, completed := NextLayer(byId, pending, selected, completed, layers);
      if layer == [] {
        return Err(NothingReady);
      }
      layers := layers + [layer];
    }
    assert Layering(byId, layers);
    LayeringIsAcyclic(byId, layers);
    r := Ok(layers);
  }

  ghost predicate Within(byId: map<Id, Slice>, pending: map<Id, Slice>) {
    forall x :: x in pending ==> x in byId && pending[x] == byId[x]
  }

  /** `layer` holds byId's slices for `ids`, in that order. */
  ghost predicate Picks(byId: map<Id, Slice>, ids: seq<Id>, layer: seq<Slice>) {
    |layer| == |ids| && forall i :: 0 <= i < |ids| ==> ids[i] in byId && layer[i] == byId[ids[i]]
  }

  /** `ids` have been moved out of `from`, which leaves `pending`. */
  ghost predicate Moved(byId: map<Id, Slice>, from: map<Id, Slice>, ids: seq<Id>, layer: seq<Slice>, pending: map<Id, Slice>) {
    && Picks(byId, ids, layer) && Within(byId, pending)
    && pending.Keys == from.Keys - Members(ids)
    && |pending| + |ids| == |from|
  }

  lemma MoveOne(byId: map<Id, Slice>, from: map<Id, Slice>, ids: seq<Id>, layer: seq<Slice>, pending: map<Id, Slice>, id: Id)
    requires Moved(byId, from, ids, layer, pending) && id in pending
    ensures Moved(byId, from, ids + [id], layer + [pending[id]], pending - {id})
  {
    MembersAppend(ids, id);
    assert (pending - {id}).Keys == pending.Keys - {id};
  }

  /** The loop state behind i ready ids. */
  ghost predicate Taken(byId: map<Id, Slice>, from: map<Id, Slice>, completed: set<Id>, ready: seq<Id>, i: nat,
                        layer: seq<Slice>, pending: map<Id, Slice>, completed': set<Id>)
  {
    i <= |ready| && Moved(byId, from, ready[..i], layer, pending) && completed' == completed + Members(ready[..i])
  }

  lemma NextIsPending(from: map<Id, Slice>, ready: seq<Id>, i: nat, pending: map<Id, Slice>)
    requires Distinct(ready) && Members(ready) <= from.Keys && i < |ready|
    requires pending.Keys == from.Keys - Members(ready[..i])
    ensures ready[i] in pending
  {
    assert ready[i] in Members(ready);
    assert ready[i] !in Members(ready[..i]);
  }

  lemma TakeOne(byId: map<Id, Slice>, from: map<Id, Slice>, completed: set<Id>, ready: seq<Id>, i: nat,
                layer: seq<Slice>, pending: map<Id, Slice>, completed': set<Id>)
    requires i < |ready| && Taken(byId, from, completed, ready, i, layer, pending, completed') && ready[i] in pending
    ensures Taken(byId, from, completed, ready, i + 1, layer + [pending[ready[i]]], pending - {ready[i]}, completed' + {ready[i]})
  {
    assert ready[..i] + [ready[i]] == ready[..i + 1];
    MoveOne(byId, from, ready[..i], layer, pending, ready[i]);
    MembersAppend(ready[..i], ready[i]);
  }

  lemma AllTaken(byId: map<Id, Slice>, from: map<Id, Slice>, completed: set<Id>, ready: seq<Id>,
                 layer: seq<Slice>, pending: map<Id, Slice>, completed': set<Id>)
    requires Taken(byId, from, completed, ready, |ready|, layer, pending, completed')
    ensures Moved(byId, from, ready, layer, pending) && completed' == completed + Members(ready)
  {
    assert ready[..|ready|] == ready;
  }

  /** Moves the ready slices from pending to completed, in key order. */
  method TakeLayer(ghost byId: map<Id, Slice>, pending: map<Id, Slice>, completed: set<Id>, ready: seq<Id>)
    returns (layer: seq<Slice>, pending': map<Id, Slice>, completed': set<Id>)
    requires Within(byId, pending) && Distinct(ready) && Members(ready) <= pending.Keys
    ensures Moved(byId, pending, ready, layer, pending')
    ensures completed' == completed + Members(ready)
  {
    layer, pending', completed' := [], pending, completed;
    for i := 0 to |ready|
      invariant Taken(byId, pending, completed, ready, i, layer, pending', completed')
    {
      var id := ready[i];
      // Every ready id is still pending, so the removal always yields a slice.
      NextIsPending(pending, ready, i, pending');
      TakeOne(byId, pending, completed, ready, i, layer, pending', completed');
      layer := layer + [pending'[id]];
      pending' := pending' - {id};
      completed' := completed' + {id};
    }
    AllTaken(byId, pending, completed, ready, layer, pending', completed');
    // `ready` is in key order, so sorting the layer by id leaves it as it is.
  }

  /** The next layer; an empty one means that nothing is ready. */
  method NextLayer(ghost byId: map<Id, Slice>, pending: map<Id, Slice>, selected: set<Id>, completed: set<Id>,
                   ghost layers: seq<seq<Slice>>)
    returns (layer: seq<Slice>, pending': map<Id, Slice>, completed': set<Id>)
    requires KeyedById(byId) && selected == byId.Keys && pending != map[]
    requires Within(byId, pending) && AllLayers(byId, layers)
    requires Progress(byId, pending.Keys, completed, |layers|)
    ensures layer == [] ==> !Acyclic(SelectedDeps(byId, byId.Keys))
    ensures layer != [] ==> Within(byId, pending') && AllLayers(byId, layers + [layer])
    ensures layer != [] ==> Progress(byId, pending'.Keys, completed', |layers| + 1) && |pending'| < |pending|
  {
    var ready := ReadyIds(byId, pending, selected, completed);
    if ready == [] {
      StuckOnCycle(byId, pending.Keys, completed, |layers|);
      return [], pending, completed;
    }
    ReadyIsNextLayer(byId, pending.Keys, completed, |layers|, ready);
    SortedIsDistinct(ready);
    assert Members(ready) <= pending.Keys;
    layer, pending', completed' := TakeLayer(byId, pending, completed, ready);
    NewLayer(byId, layers, ready, layer);
  }

  lemma NewLayer(byId: map<Id, Slice>, layers: seq<seq<Slice>>, ready: seq<Id>, layer: seq<Slice>)
    requires KeyedById(byId) && AllLayers(byId, layers) && ready != [] && Sorted(ready)
    requires forall x :: x in ready <==> x in byId && LongestChain(SelectedDeps(byId, byId.Keys), x, |layers| + 1)
    requires Picks(byId, ready, layer)
    ensures AllLayers(byId, layers + [layer])
  {
    assert Ids(layer) == ready;
    assert IsLayer(byId, |layers|, layer);
  }

  /** Some dependency of x inside byId is not completed. */
  ghost predicate Waiting(byId: map<Id, Slice>, completed: set<Id>, x: Id) {
    x in byId && exists d :: d in byId[x].dependsOn && d in byId && d !in completed
  }

  lemma NothingCompletedYet(byId: map<Id, Slice>)
    ensures forall x :: !ChainsAtMost(SelectedDeps(byId, byId.Keys), x, 0)
  {
    forall x
      ensures !ChainsAtMost(SelectedDeps(byId, byId.Keys), x, 0)
    {
      assert IsPath(SelectedDeps(byId, byId.Keys), [x]);
    }
  }

  /** After n rounds the completed ids are those whose chains have at most n members. */
  ghost predicate Progress(byId: map<Id, Slice>, pending: set<Id>, completed: set<Id>, n: nat) {
    && pending !! completed && pending + completed == byId.Keys
    && forall x :: x in byId ==> (x in completed <==> ChainsAtMost(SelectedDeps(byId, byId.Keys), x, n))
  }

  lemma ReadyIsNextLayer(byId: map<Id, Slice>, pending: set<Id>, completed: set<Id>, n: nat, ready: seq<Id>)
    requires Progress(byId, pending, completed, n)
    requires forall x :: x in ready <==> x in pending && !Waiting(byId, completed, x)
    ensures Progress(byId, pending - Members(ready), completed + Members(ready), n + 1)
    ensures forall x :: x in ready <==> x in byId && LongestChain(SelectedDeps(byId, byId.Keys), x, n + 1)
  {
    var g := SelectedDeps(byId, byId.Keys);
    forall x | x in byId
      ensures x in completed || x in ready <==> ChainsAtMost(g, x, n + 1)
    {
      if x in ready {
        ChainsFromSuccessors(g, x, n);
      }
      if ChainsAtMost(g, x, n + 1) && Waiting(byId, completed, x) {
        var d :| d in byId[x].dependsOn && d in byId && d !in completed;
        ChainsOfSuccessor(g, x, d, n);
      }
    }
  }

  lemma StuckOnCycle(byId: map<Id, Slice>, pending: set<Id>, completed: set<Id>, n: nat)
    requires pending != {} && Progress(byId, pending, completed, n)
    requires forall x {:trigger Waiting(byId, completed, x)} :: x in pending ==> Waiting(byId, completed, x)
    ensures !Acyclic(SelectedDeps(byId, byId.Keys))
  {
    var g := SelectedDeps(byId, byId.Keys);
    forall x | x in pending
      ensures HasSuccessorIn(g, pending, x)
    {
      assert Waiting(byId, completed, x);
      var d :| d in byId[x].dependsOn && d in byId && d !in completed;
      assert d in pending && Edge(g, x, d);
    }
    NoSinkHasCycle(g, pending);
  }

  lemma LayeringIsAcyclic(byId: map<Id, Slice>, layers: seq<seq<Slice>>)
    requires Layering(byId, layers)
    ensures Acyclic(SelectedDeps(byId, byId.Keys))
  {
    var g := SelectedDeps(byId, byId.Keys);
    forall c
      ensures !OnCycle(g, c)
    {
      if OnCycle(g, c) {
        var p :| Connects(g, p, c, c) && |p| > 1;
        assert Edge(g, p[1 - 1], p[1]);
        BoundedChainsNoCycle(g, c, |layers|);
      }
    }
  }

  // ---- the concatenated layers are a topological order

  ghost function Flatten(layers: seq<seq<Slice>>): seq<Slice> {
    if layers == [] then [] else Flatten(layers[..|layers| - 1]) + layers[|layers| - 1]
  }

  lemma IdsConcat(a: seq<Slice>, b: seq<Slice>)
    ensures Ids(a + b) == Ids(a) + Ids(b)
  {
  }

  /** The first n layers list exactly the slices whose chains have at most n members, in a valid order. */
  lemma {:induction false} PrefixOrder(byId: map<Id, Slice>, layers: seq<seq<Slice>>, n: nat)
    requires Layering(byId, layers) && n <= |layers|
    ensures Distinct(Ids(Flatten(layers[..n])))
    ensures forall x :: x in Ids(Flatten(layers[..n])) <==>
                          x in byId && ChainsAtMost(SelectedDeps(byId, byId.Keys), x, n)
    ensures forall i :: 0 <= i < |Flatten(layers[..n])| ==>
                          Flatten(layers[..n])[i].id in byId
                          && Flatten(layers[..n])[i] == byId[Flatten(layers[..n])[i].id]
    ensures forall i, d :: 0 <= i < |Flatten(layers[..n])| && d in Flatten(layers[..n])[i].dependsOn && d in byId ==>
                             d in Ids(Flatten(layers[..n])[..i])
  {
    if n == 0 {
      NothingCompletedYet(byId);
    } else {
      PrefixOrder(byId, layers, n - 1);
      assert layers[..n][..n - 1] == layers[..n - 1];
      AppendLayer(byId, Flatten(layers[..n - 1]), layers[n - 1], n - 1);
    }
  }

  lemma AppendLayer(byId: map<Id, Slice>, front: seq<Slice>, layer: seq<Slice>, n: nat)
    requires IsLayer(byId, n, layer) && Distinct(Ids(front))
    requires forall x :: x in Ids(front) <==> x in byId && ChainsAtMost(SelectedDeps(byId, byId.Keys), x, n)
    requires forall i :: 0 <= i < |front| ==> front[i].id in byId && front[i] == byId[front[i].id]
    requires forall i, d :: 0 <= i < |front| && d in front[i].dependsOn && d in byId ==> d in Ids(front[..i])
    ensures Distinct(Ids(front + layer))
    ensures forall x :: x in Ids(front + layer) <==> x in byId && ChainsAtMost(SelectedDeps(byId, byId.Keys), x, n + 1)
    ensures forall i, d :: 0 <= i < |front + layer| && d in (front + layer)[i].dependsOn && d in byId ==>
                             d in Ids((front + layer)[..i])
  {
    var g := SelectedDeps(byId, byId.Keys);
    IdsConcat(front, layer);
    SortedIsDistinct(Ids(layer));
    forall x
      ensures x in Ids(layer) ==> x !in Ids(front)
      ensures x in byId && ChainsAtMost(g, x, n + 1) ==> x in Ids(front) || x in Ids(layer)
    {
    }
    forall i, j | 0 <= i < j < |front + layer|
      ensures Ids(front + layer)[i] != Ids(front + layer)[j]
    {
      if i < |front| <= j {
        assert Ids(front)[i] in Ids(front) && Ids(layer)[j - |front|] in Ids(layer);
      }
    }
    forall i, d | 0 <= i < |front + layer| && d in (front + layer)[i].dependsOn && d in byId
      ensures d in Ids((front + layer)[..i])
    {
      if i < |front| {
        assert (front + layer)[..i] == front[..i];
      } else {
        var x := Ids(layer)[i - |front|];
        assert x in Ids(layer) && Edge(g, x, d);
        ChainsOfSuccessor(g, x, d, n);
        assert (front + layer)[..i] == front + layer[..i - |front|];
        IdsConcat(front, layer[..i - |front|]);
      }
    }
  }

  lemma LayersConcatenateToOrder(byId: map<Id, Slice>, layers: seq<seq<Slice>>)
    requires Layering(byId, layers)
    ensures OrdersClosure(byId, [], Flatten(layers))
  {
    PrefixOrder(byId, layers, |layers|);
    assert layers[..|layers|] == layers;
  }

  /** On every slice list the three algorithms give the same verdict, and the layers in sequence
      are an order the topological sort could have given. */
  method ThreeVerdicts(slices: seq<Slice>)
    returns (issues: seq<CycleIssues.CycleIssue>, order: Result<seq<Slice>, GraphError>,
             layers: Result<seq<seq<Slice>>, GraphError>)
    ensures (issues == []) == order.Ok? == layers.Ok?
    ensures layers.Ok? ==> OrdersClosure(ById(slices), [], order.value)
                           && OrdersClosure(ById(slices), [], Flatten(layers.value))
  {
    issues := CycleIssues.Find(slices);
    order := TopologicalOrder.TopologicalOrder(slices, []);
    layers := Layers(slices);
    OrderableAll(ById(slices));
    PresentDepsKeepCycles(ById(slices));
    if layers.Ok? {
      LayersConcatenateToOrder(ById(slices), layers.value);
    }
  }
}
