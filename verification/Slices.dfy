/** Slices, as far as dependencies and closing are concerned, and the errors of the graph operations. */
module Slices {
  import opened Graphs

  /** `body` stands for the fields no operation here looks into: title, goal, acceptance, areas, ... */
  datatype Slice = Slice(id: Id, status: string, closedByRun: string, closedAt: string, dependsOn: seq<Id>, body: string)

  datatype GraphError = NotFound(id: Id) | CycleInvolving(id: Id) | NothingReady

  /** The map the slices are collected into: of several slices with one id, the last stays. */
  function ById(slices: seq<Slice>): map<Id, Slice> {
    if slices == [] then map[]
    else
      var last := slices[|slices| - 1];
      ById(slices[..|slices| - 1])[last.id := last]
  }

  lemma {:induction false} ByIdHoldsLast(slices: seq<Slice>, id: Id)
    ensures id in ById(slices) <==> exists i :: 0 <= i < |slices| && slices[i].id == id
    ensures id in ById(slices) ==>
              exists i :: 0 <= i < |slices| && slices[i].id == id && ById(slices)[id] == slices[i]
                          && forall j :: i < j < |slices| ==> slices[j].id != id
  {
    if slices != [] {
      var rest := slices[..|slices| - 1];
      ByIdHoldsLast(rest, id);
      assert forall i :: 0 <= i < |rest| ==> rest[i] == slices[i];
      assert ById(slices) == ById(rest)[slices[|rest|].id := slices[|rest|]];
      if slices[|rest|].id != id && id in ById(rest) {
        var i :| 0 <= i < |rest| && rest[i].id == id && ById(rest)[id] == rest[i]
                 && forall j :: i < j < |rest| ==> rest[j].id != id;
        assert slices[i].id == id;
      }
    }
  }

  lemma {:induction false} ByIdKeepsIds(slices: seq<Slice>)
    ensures forall id :: id in ById(slices) ==> ById(slices)[id].id == id
  {
    if slices != [] {
      ByIdKeepsIds(slices[..|slices| - 1]);
    }
  }

  ghost function Ids(slices: seq<Slice>): (ids: seq<Id>)
    ensures |ids| == |slices|
    ensures forall i :: 0 <= i < |ids| ==> ids[i] == slices[i].id
  {
    seq(|slices|, i requires 0 <= i < |slices| => slices[i].id)
  }

  /** Every declared dependency, present or not. */
  function AllDeps(byId: map<Id, Slice>): Graph {
    map id | id in byId :: set d | d in byId[id].dependsOn
  }

  /** The dependencies inside a selection of ids; the others are skipped. */
  function SelectedDeps(byId: map<Id, Slice>, selection: set<Id>): Graph {
    map id | id in byId && id in selection :: set d | d in byId[id].dependsOn && d in selection
  }

  /** No cycle runs through an absent id, so skipping absent dependencies loses no cycle. */
  lemma PresentDepsKeepCycles(byId: map<Id, Slice>)
    ensures forall c :: OnCycle(AllDeps(byId), c) <==> OnCycle(SelectedDeps(byId, byId.Keys), c)
    ensures Acyclic(AllDeps(byId)) <==> Acyclic(SelectedDeps(byId, byId.Keys))
  {
    var all, present := AllDeps(byId), SelectedDeps(byId, byId.Keys);
    forall c
      ensures OnCycle(all, c) <==> OnCycle(present, c)
    {
      if OnCycle(all, c) {
        var p :| Connects(all, p, c, c) && |p| > 1;
        assert Edge(all, p[1 - 1], p[1]);
        forall i | 0 < i < |p|
          ensures Edge(present, p[i - 1], p[i])
        {
          assert Edge(all, p[i - 1], p[i]);
          assert i + 1 < |p| ==> Edge(all, p[i + 1 - 1], p[i + 1]);
        }
        assert Connects(present, p, c, c);
      }
      if OnCycle(present, c) {
        SubgraphCycle(present, all, c);
      }
    }
  }

  /** A selection closed under present dependencies contains every cycle it reaches. */
  lemma ClosedSelectionKeepsCycles(byId: map<Id, Slice>, selection: set<Id>)
    requires selection <= byId.Keys
    requires forall a, d :: a in selection && d in byId[a].dependsOn && d in byId ==> d in selection
    ensures Acyclic(SelectedDeps(byId, selection)) <==> forall a :: a in selection ==> !OnCycle(AllDeps(byId), a)
  {
    var all, kept := AllDeps(byId), SelectedDeps(byId, selection);
    forall c
      ensures OnCycle(kept, c) ==> c in selection && OnCycle(all, c)
    {
      if OnCycle(kept, c) {
        var p :| Connects(kept, p, c, c) && |p| > 1;
        assert Edge(kept, p[1 - 1], p[1]);
        SubgraphCycle(kept, all, c);
      }
    }
    forall c | c in selection && OnCycle(all, c)
      ensures OnCycle(kept, c)
    {
      PresentDepsKeepCycles(byId);
      var present := SelectedDeps(byId, byId.Keys);
      var p :| Connects(present, p, c, c) && |p| > 1;
      forall i | 0 < i < |p|
        ensures Edge(kept, p[i - 1], p[i])
      {
        ClosedAlongPath(present, selection, p, i);
        ClosedAlongPath(present, selection, p, i - 1);
        assert Edge(present, p[i - 1], p[i]);
      }
      assert Connects(kept, p, c, c);
    }
  }
}
