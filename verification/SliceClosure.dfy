/** Closing slices: a write-once transition of the slice files, reported slice by slice. */
module SliceClosure {
  import opened Outcomes
  import opened Slices
  import opened Graphs
  import opened Strings

  const CLOSED := "closed"

  /** A slice file that cannot be read as a slice, or its contents. An absent file is absent from the store. */
  datatype SliceFile = Unreadable | Readable(slice: Slice)

  type Store = map<Id, SliceFile>

  function ClosedSlice(slice: Slice, run: string, at: string): Slice {
    slice.(status := CLOSED, closedByRun := run, closedAt := at)
  }

  /** The file after an attempt to close it, and whether the attempt is reported as successful. */
  function CloseFile(valid: Slice -> bool, file: SliceFile, run: string, at: string, outcome: WriteOutcome): (SliceFile, bool) {
    match file
    case Unreadable => (file, false)
    case Readable(slice) =>
      if slice.status == CLOSED then (file, slice.closedByRun == run && !Blank(slice.closedAt))
      else
        var closed := ClosedSlice(slice, run, at);
        if !valid(closed) || outcome == NotInstalled then (file, false)
        else (Readable(closed), outcome == Installed)
  }

  /** The slice could be read, is open, and meets the field checks with this run and time entered. */
  predicate Closable(valid: Slice -> bool, file: SliceFile, run: string, at: string) {
    && file.Readable? && file.slice.status != "closed"
    && var slice := file.slice;
       valid(Slice(slice.id, "closed", run, at, slice.dependsOn, slice.body))
  }

  /** The file is there, closed by this run at this time, and says the same otherwise. */
  ghost predicate ClosedFrom(before: SliceFile, after: SliceFile, run: string, at: string) {
    && before.Readable? && after.Readable?
    && after.slice.status == "closed" && after.slice.closedByRun == run && after.slice.closedAt == at
    && after.slice.id == before.slice.id && after.slice.dependsOn == before.slice.dependsOn && after.slice.body == before.slice.body
  }

  ghost predicate AlreadyClosed(file: SliceFile, run: string) {
    file.Readable? && file.slice.status == "closed" && file.slice.closedByRun == run && !Blank(file.slice.closedAt)
  }

  datatype Incident = Missing(id: Id) | CloseFailed(id: Id)

  datatype Report = Report(closedSliceIds: seq<Id>, incidents: seq<Incident>)

  datatype Request = Request(ids: seq<Id>, run: string, at: string, outcomes: nat -> WriteOutcome)

  /** The store and the report after the first n requested ids. */
  function CloseFirst(valid: Slice -> bool, store: Store, q: Request, n: nat): (Store, Report)
    requires n <= |q.ids|
  {
    if n == 0 then (store, Report([], []))
    else
      var (before, report) := CloseFirst(valid, store, q, n - 1);
      var id := q.ids[n - 1];
      if id !in before then (before, report.(incidents := report.incidents + [Missing(id)]))
      else
        var (file, ok) := CloseFile(valid, before[id], q.run, q.at, q.outcomes(n - 1));
        (before[id := file],
         if ok then report.(closedSliceIds := report.closedSliceIds + [id])
         else report.(incidents := report.incidents + [CloseFailed(id)]))
  }

  function CloseAll(valid: Slice -> bool, store: Store, q: Request): (Store, Report) {
    CloseFirst(valid, store, q, |q.ids|)
  }

  class ArtifactStore {
    const valid: Slice -> bool
    var files: Store

    constructor (valid: Slice -> bool, files: Store)
      ensures this.valid == valid && this.files == files
    {
      this.valid := valid;
      this.files := files;
    }

    method CloseSliceFile(id: Id, run: string, at: string, outcome: WriteOutcome) returns (ok: bool)
      requires id in files
      modifies this
      ensures var (file, closed) := CloseFile(valid, old(files)[id], run, at, outcome);
              files == old(files)[id := file] && ok == closed
      ensures ok <==> (Closable(valid, old(files)[id], run, at) && outcome == Installed) || AlreadyClosed(old(files)[id], run)
      ensures if Closable(valid, old(files)[id], run, at) && outcome != NotInstalled
              then ClosedFrom(old(files)[id], files[id], run, at) else files == old(files)
    {
      if files[id].Unreadable? {
        assert files == files[id := files[id]];
        return false;
      }
      var slice := files[id].slice;
      if slice.status == CLOSED {
        assert files == files[id := files[id]];
        if slice.closedByRun == run && !Blank(slice.closedAt) {
          return true;
        }
        return false;
      }
      slice := slice.(status := CLOSED);
      slice := slice.(closedByRun := run);
      slice := slice.(closedAt := at);
      if !valid(slice) {
        assert files == files[id := files[id]];
        return false;
      }
      if outcome == NotInstalled {
        assert files == files[id := files[id]];
        return false;
      }
      files := files[id := Readable(slice)];
      ok := outcome == Installed;
    }

    method CloseSlicesIfPresent(q: Request) returns (report: Report)
      modifies this
      ensures (files, report) == CloseAll(valid, old(files), q)
    {
      report := Report([], []);
      for n := 0 to |q.ids|
        invariant (files, report) == CloseFirst(valid, old(files), q, n)
      {
        var id := q.ids[n];
        if id !in files {
          report := report.(incidents := report.incidents + [Missing(id)]);
        } else {
          var ok := CloseSliceFile(id, q.run, q.at, q.outcomes(n));
          if ok {
            report := report.(closedSliceIds := report.closedSliceIds + [id]);
          } else {
            report := report.(incidents := report.incidents + [CloseFailed(id)]);
          }
        }
      }
    }
  }

  // ---- what a request closes

  /** A file changes exactly if it could be closed and its write was not refused; it is reported closed exactly
      if that write is known to have reached the disk, or the run had closed it before. */
  lemma ClosesExactly(valid: Slice -> bool, file: SliceFile, run: string, at: string, outcome: WriteOutcome)
    ensures var (after, ok) := CloseFile(valid, file, run, at, outcome);
            && (Closable(valid, file, run, at) && outcome != NotInstalled ==> after != file && ClosedFrom(file, after, run, at))
            && (!Closable(valid, file, run, at) || outcome == NotInstalled ==> after == file)
            && (ok <==> (Closable(valid, file, run, at) && outcome == Installed) || AlreadyClosed(file, run))
  {
  }

  /** So for the n-th occurrence of a request: what is reported, and what becomes of its file and of the others. */
  lemma OccurrenceCloses(valid: Slice -> bool, store: Store, q: Request, n: nat)
    requires n < |q.ids|
    ensures var (before, report) := CloseFirst(valid, store, q, n);
            var (after, report') := CloseFirst(valid, store, q, n + 1);
            var (id, outcome) := (q.ids[n], q.outcomes(n));
            var reported := id in before && ((Closable(valid, before[id], q.run, q.at) && outcome == Installed) || AlreadyClosed(before[id], q.run));
            && report'.closedSliceIds == (if reported then report.closedSliceIds + [id] else report.closedSliceIds)
            && report'.incidents == (if reported then report.incidents
                                     else report.incidents + [if id in before then CloseFailed(id) else Missing(id)])
            && after.Keys == before.Keys && (forall other :: other in before && other != id ==> after[other] == before[other])
            && (id in before ==> if Closable(valid, before[id], q.run, q.at) && outcome != NotInstalled
                                 then ClosedFrom(before[id], after[id], q.run, q.at) else after[id] == before[id])
  {
    var before := CloseFirst(valid, store, q, n).0;
    if q.ids[n] in before {
      ClosesExactly(valid, before[q.ids[n]], q.run, q.at, q.outcomes(n));
    }
  }

  lemma {:induction false} OthersUntouched(valid: Slice -> bool, store: Store, q: Request, n: nat, id: Id)
    requires n <= |q.ids| && id !in q.ids[..n]
    ensures id in CloseFirst(valid, store, q, n).0 <==> id in store
    ensures id in store ==> CloseFirst(valid, store, q, n).0[id] == store[id]
  {
    if n > 0 {
      assert q.ids[..n][n - 1] == q.ids[n - 1] && q.ids[..n][..n - 1] == q.ids[..n - 1];
      OthersUntouched(valid, store, q, n - 1, id);
    }
  }

  lemma {:induction false} ReportGrows(valid: Slice -> bool, store: Store, q: Request, m: nat, n: nat)
    requires m <= n <= |q.ids|
    ensures CloseFirst(valid, store, q, m).1.closedSliceIds <= CloseFirst(valid, store, q, n).1.closedSliceIds
    decreases n
  {
    if m < n {
      ReportGrows(valid, store, q, m, n - 1);
    }
  }

  /** A request closes, and reports as closed, every slice it names that can be closed and whose first write
      succeeds. */
  lemma RequestCloses(valid: Slice -> bool, store: Store, q: Request, n: nat)
    requires n < |q.ids| && q.ids[n] !in q.ids[..n]
    requires q.ids[n] in store && Closable(valid, store[q.ids[n]], q.run, q.at) && q.outcomes(n) == Installed
    ensures var (after, report) := CloseAll(valid, store, q);
            q.ids[n] in report.closedSliceIds && q.ids[n] in after && ClosedFrom(store[q.ids[n]], after[q.ids[n]], q.run, q.at)
  {
    var id := q.ids[n];
    OthersUntouched(valid, store, q, n, id);
    OccurrenceCloses(valid, store, q, n);
    ReportGrows(valid, store, q, n + 1, |q.ids|);
    assert CloseFirst(valid, store, q, n + 1).1.closedSliceIds[|CloseFirst(valid, store, q, n).1.closedSliceIds|] == id;
    ClosedAtStays(valid, store, q, n + 1, |q.ids|, id);
  }

  lemma {:induction false} ClosedAtStays(valid: Slice -> bool, store: Store, q: Request, m: nat, n: nat, id: Id)
    requires m <= n <= |q.ids| && IsClosed(CloseFirst(valid, store, q, m).0, id)
    ensures id in CloseFirst(valid, store, q, n).0 && CloseFirst(valid, store, q, n).0[id] == CloseFirst(valid, store, q, m).0[id]
    decreases n
  {
    if m < n {
      ClosedAtStays(valid, store, q, m, n - 1, id);
    }
  }

  // ---- write-once

  ghost predicate IsClosed(store: Store, id: Id) {
    id in store && store[id].Readable? && store[id].slice.status == CLOSED
  }

  function CloseMany(valid: Slice -> bool, store: Store, qs: seq<Request>): Store {
    if qs == [] then store else CloseAll(valid, CloseMany(valid, store, qs[..|qs| - 1]), qs[|qs| - 1]).0
  }

  /** Whatever runs request closures, in whatever order and with whatever failures: a closed slice is never
      written again, and a slice that is closed later bears the run and time of one of the requests for it. */
  lemma {:induction false} ClosedOnce(valid: Slice -> bool, store: Store, qs: seq<Request>, id: Id)
    ensures IsClosed(store, id) ==> id in CloseMany(valid, store, qs) && CloseMany(valid, store, qs)[id] == store[id]
    ensures id in store <==> id in CloseMany(valid, store, qs)
    ensures id in store && CloseMany(valid, store, qs)[id] != store[id] ==>
              store[id].Readable? && !IsClosed(store, id)
              && exists i :: 0 <= i < |qs| && id in qs[i].ids
                             && CloseMany(valid, store, qs)[id] == Readable(ClosedSlice(store[id].slice, qs[i].run, qs[i].at))
  {
    if qs != [] {
      var front, q := qs[..|qs| - 1], qs[|qs| - 1];
      ClosedOnce(valid, store, front, id);
      var before := CloseMany(valid, store, front);
      OneRequest(valid, before, q, |q.ids|, id);
      if IsClosed(before, id) {
        ClosedAtStays(valid, before, q, 0, |q.ids|, id);
      }
      if id in store && before[id] != store[id] {
        var i :| 0 <= i < |front| && id in front[i].ids
                 && before[id] == Readable(ClosedSlice(store[id].slice, front[i].run, front[i].at));
        assert qs[i] == front[i];
      }
    }
  }

  lemma {:induction false} OneRequest(valid: Slice -> bool, store: Store, q: Request, n: nat, id: Id)
    requires n <= |q.ids|
    ensures id in store <==> id in CloseFirst(valid, store, q, n).0
    ensures id in store && CloseFirst(valid, store, q, n).0[id] != store[id] ==>
              store[id].Readable? && !IsClosed(store, id) && id in q.ids
              && CloseFirst(valid, store, q, n).0[id] == Readable(ClosedSlice(store[id].slice, q.run, q.at))
  {
    if n > 0 {
      OneRequest(valid, store, q, n - 1, id);
    }
  }

  // ---- the report

  ghost predicate Merges(ids: seq<Id>, closed: seq<Id>, incidents: seq<Incident>) {
    if ids == [] then closed == [] && incidents == []
    else
      var id, front := ids[|ids| - 1], ids[..|ids| - 1];
      || (closed != [] && closed[|closed| - 1] == id && Merges(front, closed[..|closed| - 1], incidents))
      || (incidents != [] && incidents[|incidents| - 1].id == id && Merges(front, closed, incidents[..|incidents| - 1]))
  }

  /** Every requested occurrence ends up as one closed id or one incident, in request order. */
  lemma {:induction false} EveryOccurrenceReported(valid: Slice -> bool, store: Store, q: Request, n: nat)
    requires n <= |q.ids|
    ensures Merges(q.ids[..n], CloseFirst(valid, store, q, n).1.closedSliceIds, CloseFirst(valid, store, q, n).1.incidents)
  {
    if n > 0 {
      EveryOccurrenceReported(valid, store, q, n - 1);
      assert q.ids[..n][..n - 1] == q.ids[..n - 1];
    }
  }

  /** An incident says why: the file was absent, or it was there and could not be closed. */
  lemma {:induction false} IncidentsSayWhy(valid: Slice -> bool, store: Store, q: Request, n: nat, incident: Incident)
    requires n <= |q.ids| && incident in CloseFirst(valid, store, q, n).1.incidents
    ensures incident.Missing? <==> incident.id !in store
  {
    var report := CloseFirst(valid, store, q, n - 1).1;
    OneRequest(valid, store, q, n - 1, q.ids[n - 1]);
    if incident in report.incidents {
      IncidentsSayWhy(valid, store, q, n - 1, incident);
    }
  }

  /** A reported closure holds: the slice is closed by this run. */
  lemma {:induction false} ReportedClosedIsClosed(valid: Slice -> bool, store: Store, q: Request, n: nat, id: Id)
    requires n <= |q.ids| && id in CloseFirst(valid, store, q, n).1.closedSliceIds
    ensures var after := CloseFirst(valid, store, q, n).0;
            IsClosed(after, id) && after[id].slice.closedByRun == q.run
  {
    var (before, report) := CloseFirst(valid, store, q, n - 1);
    if id in report.closedSliceIds {
      ReportedClosedIsClosed(valid, store, q, n - 1, id);
    }
  }

  // ---- repeating a request

  /** Repeating a request for a slice it has closed succeeds, changing nothing, exactly when the slice bears a
      time that is not blank; otherwise it is refused, and still changes nothing. */
  lemma RepeatedClose(valid: Slice -> bool, file: SliceFile, run: string, at: string, outcome: WriteOutcome,
                      at': string, outcome': WriteOutcome)
    requires CloseFile(valid, file, run, at, outcome).1
    ensures var (closed, _) := CloseFile(valid, file, run, at, outcome);
            var (again, ok) := CloseFile(valid, closed, run, at', outcome');
            again == closed && (ok <==> closed.Readable? && !Blank(closed.slice.closedAt))
    ensures !Blank(at) ==> CloseFile(valid, CloseFile(valid, file, run, at, outcome).0, run, at', outcome').1
  {
  }

  /** The requested slices, each closed by this run at a time that is not blank. */
  ghost predicate AllClosedBy(store: Store, ids: seq<Id>, run: string) {
    forall i :: 0 <= i < |ids| ==>
                  IsClosed(store, ids[i]) && store[ids[i]].slice.closedByRun == run && !Blank(store[ids[i]].slice.closedAt)
  }

  lemma {:induction false} RepeatFirst(valid: Slice -> bool, store: Store, q: Request, n: nat)
    requires n <= |q.ids| && AllClosedBy(store, q.ids, q.run)
    ensures CloseFirst(valid, store, q, n) == (store, Report(q.ids[..n], []))
  {
    if n > 0 {
      RepeatFirst(valid, store, q, n - 1);
      assert store[q.ids[n - 1] := store[q.ids[n - 1]]] == store;
      assert q.ids[..n] == q.ids[..n - 1] + [q.ids[n - 1]];
    }
  }

  /** A request that closed everything at a time that is not blank can be repeated by the same run, at any
      time and with any write outcome: it closes everything again without touching the store. */
  lemma RepeatedRequest(valid: Slice -> bool, store: Store, q: Request, again: Request)
    requires CloseAll(valid, store, q).1.incidents == [] && !Blank(q.at)
    requires again.ids == q.ids && again.run == q.run
    ensures CloseAll(valid, CloseAll(valid, store, q).0, again) == (CloseAll(valid, store, q).0, Report(q.ids, []))
  {
    var after := CloseAll(valid, store, q).0;
    ClosedAtGoodTimes(valid, store, q, |q.ids|);
    assert q.ids[..|q.ids|] == q.ids;
    RepeatFirst(valid, after, again, |q.ids|);
  }

  lemma {:induction false} ClosedAtGoodTimes(valid: Slice -> bool, store: Store, q: Request, n: nat)
    requires n <= |q.ids| && CloseFirst(valid, store, q, n).1.incidents == [] && !Blank(q.at)
    ensures AllClosedBy(CloseFirst(valid, store, q, n).0, q.ids[..n], q.run)
  {
    if n > 0 {
      ClosedAtGoodTimes(valid, store, q, n - 1);
      var before, after := CloseFirst(valid, store, q, n - 1).0, CloseFirst(valid, store, q, n).0;
      forall i | 0 <= i < n
        ensures IsClosed(after, q.ids[i]) && after[q.ids[i]].slice.closedByRun == q.run && !Blank(after[q.ids[i]].slice.closedAt)
      {
        if i < n - 1 {
          assert q.ids[..n - 1][i] == q.ids[i];
        }
      }
    }
  }
}
