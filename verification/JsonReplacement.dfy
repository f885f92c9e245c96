/** Atomic replacement of one JSON file by any number of concurrent writers, over a file system whose
    contents and directory entries reach the disk late and may be lost in a crash. */
module JsonReplacement {
  import opened Outcomes

  type Bytes = seq<int>
  type Name = string
  type Inode = nat
  type Writer = nat

  /** What a process reads, what a crash would leave, and whether the two are synchronized for good. */
  datatype File = File(content: Bytes, durable: Bytes, clean: bool)

  /** What the destination's directory entry names: what was there first, or a writer's file. */
  datatype Entry = Original(file: Option<Inode>) | Replaced(writer: Writer, ino: Inode)

  /** Where a writer is. Failing and Failed end in an error before the installation, Uncertain in one after it. */
  datatype Stage =
    | Starting
    | Writing(temp: Name, ino: Inode)
    | Synced(temp: Name, ino: Inode)
    | Installed(ino: Inode)
    | Done(ino: Inode)
    | Uncertain(ino: Inode)
    | Failing(temp: Name, ino: Inode)
    | Failed(created: Option<Inode>, cleaned: bool)

  /** `entries` are the successive values of the destination's entry; the last is current, and the one at
      `durable` is on disk. `temps` are the other entries of the directory. */
  datatype State = State(
    files: map<Inode, File>, entries: seq<Entry>, durable: nat, temps: map<Name, Inode>, stages: map<Writer, Stage>)

  datatype Step =
    | Create(temp: Name, ino: Inode)
    | Write(chunk: Bytes)
    | SyncTemp
    | Rename
    | SyncParent
    | Fail
    | Cleanup(removed: bool)
    | WriteBack(ino: Inode, durable: Bytes)   // the system writes any bytes of an unsynchronized file
    | FlushDirectory(upTo: nat)               // the system brings pending renames to the disk

  function StageOf(s: State, w: Writer): Stage {
    if w in s.stages then s.stages[w] else Starting
  }

  function At(s: State, w: Writer, stage: Stage): State {
    s.(stages := s.stages[w := stage])
  }

  predicate HasTemp(stage: Stage) {
    stage.Writing? || stage.Synced? || stage.Failing?
  }

  /** `payload(w)` is the complete text that writer w serialized. */
  predicate Enabled(payload: Writer -> Bytes, s: State, w: Writer, step: Step) {
    var stage := StageOf(s, w);
    match step
    case Create(temp, ino) => stage.Starting? && temp !in s.temps && ino !in s.files
    case Write(chunk) => stage.Writing? && stage.ino in s.files && s.files[stage.ino].content + chunk <= payload(w)
    case SyncTemp => stage.Writing? && stage.ino in s.files && s.files[stage.ino].content == payload(w)
    case Rename => stage.Synced?
    case SyncParent => stage.Installed?
    case Fail => stage.Starting? || stage.Writing? || stage.Synced? || stage.Installed?
    case Cleanup(_) => stage.Failing?
    case WriteBack(ino, _) => ino in s.files && !s.files[ino].clean
    case FlushDirectory(upTo) => s.durable <= upTo < |s.entries|
  }

  function Next(payload: Writer -> Bytes, s: State, w: Writer, step: Step): State
    requires Enabled(payload, s, w, step)
  {
    var stage := StageOf(s, w);
    match step
    case Create(temp, ino) =>
      At(s, w, Writing(temp, ino)).(files := s.files[ino := File([], [], false)], temps := s.temps[temp := ino])
    case Write(chunk) =>
      var file := s.files[stage.ino];
      s.(files := s.files[stage.ino := file.(content := file.content + chunk)])
    case SyncTemp =>
      var content := s.files[stage.ino].content;
      At(s, w, Synced(stage.temp, stage.ino)).(files := s.files[stage.ino := File(content, content, true)])
    case Rename =>
      At(s, w, Stage.Installed(stage.ino)).(entries := s.entries + [Replaced(w, stage.ino)], temps := s.temps - {stage.temp})
    case SyncParent => At(s, w, Done(stage.ino)).(durable := if s.entries == [] then 0 else |s.entries| - 1)
    case Fail =>
      At(s, w, match stage
               case Starting => Failed(None, true)
               case Installed(ino) => Uncertain(ino)
               case Writing(temp, ino) => Failing(temp, ino)
               case Synced(temp, ino) => Failing(temp, ino)
               case _ => stage)
    case Cleanup(removed) =>
      var failed := At(s, w, Failed(Some(stage.ino), removed));
      if removed then failed.(temps := s.temps - {stage.temp}) else failed
    case WriteBack(ino, bytes) => s.(files := s.files[ino := s.files[ino].(durable := bytes)])
    case FlushDirectory(upTo) => s.(durable := upTo)
  }

  // ---- what a reader sees, now and after a crash

  ghost function Visible(s: State): Option<Bytes>
    requires s.entries != []
  {
    match s.entries[|s.entries| - 1]
    case Original(None) => None
    case Original(Some(ino)) => if ino in s.files then Some(s.files[ino].content) else None
    case Replaced(_, ino) => if ino in s.files then Some(s.files[ino].content) else None
  }

  ghost function AfterCrash(s: State): Option<Bytes>
    requires s.durable < |s.entries|
  {
    match s.entries[s.durable]
    case Original(None) => None
    case Original(Some(ino)) => if ino in s.files then Some(s.files[ino].durable) else None
    case Replaced(_, ino) => if ino in s.files then Some(s.files[ino].durable) else None
  }

  /** The start: the destination is absent, or a synchronized file; other entries may lie about. */
  ghost predicate Start(original: Option<Bytes>, s: State) {
    && |s.entries| == 1 && s.durable == 0 && s.stages == map[]
    && (original.None? ==> s.entries[0] == Original(None))
    && (original.Some? ==> exists ino :: ino in s.files && s.entries[0] == Original(Some(ino))
                                     && s.files[ino] == File(original.value, original.value, true))
    && (forall n :: n in s.temps ==> s.temps[n] in s.files)
  }

  // ---- the invariant

  ghost predicate Complete(s: State, ino: Inode, bytes: Bytes) {
    ino in s.files && s.files[ino] == File(bytes, bytes, true)
  }

  ghost predicate EntryOk(payload: Writer -> Bytes, original: Option<Bytes>, s: State, e: Entry) {
    match e
    case Original(None) => original == None
    case Original(Some(ino)) => original.Some? && Complete(s, ino, original.value)
    case Replaced(w, ino) => Complete(s, ino, payload(w))
  }

  ghost predicate InstalledBy(s: State, w: Writer, ino: Inode, upTo: nat) {
    exists p :: 0 < p < |s.entries| && p <= upTo && s.entries[p] == Replaced(w, ino)
  }

  ghost predicate NeverInstalled(s: State, w: Writer) {
    forall p :: 0 <= p < |s.entries| ==> !(s.entries[p].Replaced? && s.entries[p].writer == w)
  }

  ghost predicate Unlinked(s: State, ino: Inode) {
    forall n :: n in s.temps ==> s.temps[n] != ino
  }

  ghost predicate Owns(s: State, temp: Name, ino: Inode) {
    temp in s.temps && s.temps[temp] == ino && forall n :: n in s.temps && n != temp ==> s.temps[n] != ino
  }

  ghost predicate StageOk(payload: Writer -> Bytes, s: State, w: Writer, stage: Stage) {
    match stage
    case Starting => NeverInstalled(s, w)
    case Writing(temp, ino) =>
      Owns(s, temp, ino) && NeverInstalled(s, w) && ino in s.files && !s.files[ino].clean && s.files[ino].content <= payload(w)
    case Synced(temp, ino) => Owns(s, temp, ino) && NeverInstalled(s, w) && Complete(s, ino, payload(w))
    case Failing(temp, ino) => Owns(s, temp, ino) && NeverInstalled(s, w) && ino in s.files
    case Installed(ino) => InstalledBy(s, w, ino, |s.entries|) && Unlinked(s, ino) && ino in s.files
    case Uncertain(ino) => InstalledBy(s, w, ino, |s.entries|) && Unlinked(s, ino) && ino in s.files
    case Done(ino) => InstalledBy(s, w, ino, s.durable) && Unlinked(s, ino) && ino in s.files
    case Failed(None, _) => NeverInstalled(s, w)
    case Failed(Some(ino), cleaned) => NeverInstalled(s, w) && ino in s.files && (cleaned ==> Unlinked(s, ino))
  }

  ghost predicate Inv(payload: Writer -> Bytes, original: Option<Bytes>, s: State) {
    && s.durable < |s.entries|
    && (forall p :: 0 <= p < |s.entries| ==> EntryOk(payload, original, s, s.entries[p]))
    && (forall w :: StageOk(payload, s, w, StageOf(s, w)))
    && (forall v, w :: v != w && HasTemp(StageOf(s, v)) && HasTemp(StageOf(s, w)) ==>
                         StageOf(s, v).temp != StageOf(s, w).temp)
    && (forall n :: n in s.temps ==> s.temps[n] in s.files)
  }

  lemma StartInv(payload: Writer -> Bytes, original: Option<Bytes>, s: State)
    requires Start(original, s)
    ensures Inv(payload, original, s)
  {
  }

  /** Installations are never undone, and what is on disk only moves on. */
  lemma InstalledStays(s: State, s': State, w: Writer, ino: Inode, upTo: nat, upTo': nat)
    requires s.entries <= s'.entries && upTo <= upTo' && InstalledBy(s, w, ino, upTo)
    ensures InstalledBy(s', w, ino, upTo')
  {
    var p :| 0 < p < |s.entries| && p <= upTo && s.entries[p] == Replaced(w, ino);
    assert s'.entries[p] == Replaced(w, ino);
  }

  lemma StepMovesOn(payload: Writer -> Bytes, original: Option<Bytes>, s: State, w: Writer, step: Step)
    requires Inv(payload, original, s) && Enabled(payload, s, w, step)
    ensures s.entries <= Next(payload, s, w, step).entries && s.durable <= Next(payload, s, w, step).durable
    ensures forall v :: v != w ==> StageOf(Next(payload, s, w, step), v) == StageOf(s, v)
  {
  }

  lemma BystanderOk(payload: Writer -> Bytes, original: Option<Bytes>, s: State, w: Writer, step: Step, v: Writer)
    requires Inv(payload, original, s) && Enabled(payload, s, w, step) && v != w
    ensures StageOk(payload, Next(payload, s, w, step), v, StageOf(s, v))
  {
    assert StageOk(payload, s, v, StageOf(s, v)) && StageOk(payload, s, w, StageOf(s, w));
    match StageOf(s, v)
    case Starting => StaysUninstalled(payload, s, w, step, v);
    case Failed(_, _) => FailedBystander(payload, original, s, w, step, v);
    case Writing(_, _) => OwningBystander(payload, original, s, w, step, v);
    case Synced(_, _) => OwningBystander(payload, original, s, w, step, v);
    case Failing(_, _) => OwningBystander(payload, original, s, w, step, v);
    case _ => InstalledBystander(payload, original, s, w, step, v);
  }

  lemma StaysUninstalled(payload: Writer -> Bytes, s: State, w: Writer, step: Step, v: Writer)
    requires Enabled(payload, s, w, step) && v != w && NeverInstalled(s, v)
    ensures NeverInstalled(Next(payload, s, w, step), v)
  {
  }

  /** No step but its owner's touches a temporary file, except that the system writes more of it to the disk. */
  lemma StaysOwned(payload: Writer -> Bytes, original: Option<Bytes>, s: State, w: Writer, step: Step, v: Writer)
    requires Inv(payload, original, s) && Enabled(payload, s, w, step) && v != w && HasTemp(StageOf(s, v))
    requires Owns(s, StageOf(s, v).temp, StageOf(s, v).ino) && StageOf(s, v).ino in s.files
    requires StageOk(payload, s, w, StageOf(s, w))
    ensures Owns(Next(payload, s, w, step), StageOf(s, v).temp, StageOf(s, v).ino)
    ensures StageOf(s, v).ino in Next(payload, s, w, step).files
    ensures var before, after := s.files[StageOf(s, v).ino], Next(payload, s, w, step).files[StageOf(s, v).ino];
            before.content == after.content && before.clean == after.clean && (before.clean ==> before == after)
  {
  }

  lemma OwningBystander(payload: Writer -> Bytes, original: Option<Bytes>, s: State, w: Writer, step: Step, v: Writer)
    requires Inv(payload, original, s) && Enabled(payload, s, w, step) && v != w && HasTemp(StageOf(s, v))
    ensures StageOk(payload, Next(payload, s, w, step), v, StageOf(s, v))
  {
    assert StageOk(payload, s, v, StageOf(s, v)) && StageOk(payload, s, w, StageOf(s, w));
    StaysUninstalled(payload, s, w, step, v);
    StaysOwned(payload, original, s, w, step, v);
  }

  lemma StaysUnlinked(payload: Writer -> Bytes, original: Option<Bytes>, s: State, w: Writer, step: Step, ino: Inode)
    requires Inv(payload, original, s) && Enabled(payload, s, w, step) && Unlinked(s, ino) && ino in s.files
    ensures Unlinked(Next(payload, s, w, step), ino) && ino in Next(payload, s, w, step).files
  {
    assert StageOk(payload, s, w, StageOf(s, w));
  }

  lemma FailedBystander(payload: Writer -> Bytes, original: Option<Bytes>, s: State, w: Writer, step: Step, v: Writer)
    requires Inv(payload, original, s) && Enabled(payload, s, w, step) && v != w && StageOf(s, v).Failed?
    ensures StageOk(payload, Next(payload, s, w, step), v, StageOf(s, v))
  {
    assert StageOk(payload, s, v, StageOf(s, v)) && StageOk(payload, s, w, StageOf(s, w));
    StaysUninstalled(payload, s, w, step, v);
    if StageOf(s, v).created.Some? && StageOf(s, v).cleaned {
      StaysUnlinked(payload, original, s, w, step, StageOf(s, v).created.value);
    }
  }

  lemma InstalledBystander(payload: Writer -> Bytes, original: Option<Bytes>, s: State, w: Writer, step: Step, v: Writer)
    requires Inv(payload, original, s) && Enabled(payload, s, w, step) && v != w
    requires StageOf(s, v).Installed? || StageOf(s, v).Uncertain? || StageOf(s, v).Done?
    ensures StageOk(payload, Next(payload, s, w, step), v, StageOf(s, v))
  {
    var s' := Next(payload, s, w, step);
    var ino := StageOf(s, v).ino;
    assert StageOk(payload, s, v, StageOf(s, v));
    StepMovesOn(payload, original, s, w, step);
    StaysUnlinked(payload, original, s, w, step, ino);
    if StageOf(s, v).Done? {
      InstalledStays(s, s', v, ino, s.durable, s'.durable);
    } else {
      InstalledStays(s, s', v, ino, |s.entries|, |s'.entries|);
    }
  }

  lemma ActorOk(payload: Writer -> Bytes, original: Option<Bytes>, s: State, w: Writer, step: Step)
    requires Inv(payload, original, s) && Enabled(payload, s, w, step)
    ensures StageOk(payload, Next(payload, s, w, step), w, StageOf(Next(payload, s, w, step), w))
  {
    var s' := Next(payload, s, w, step);
    var stage := StageOf(s, w);
    assert StageOk(payload, s, w, stage);
    StepMovesOn(payload, original, s, w, step);
    match stage
    case Synced(temp, ino) =>
      if step.Rename? {
        assert s'.entries[|s.entries|] == Replaced(w, ino);
      }
    case Installed(ino) =>
      var p :| 0 < p < |s.entries| && p <= |s.entries| && s.entries[p] == Replaced(w, ino);
      assert s'.entries[p] == Replaced(w, ino);
    case Uncertain(ino) => InstalledStays(s, s', w, ino, |s.entries|, |s'.entries|);
    case Done(ino) => InstalledStays(s, s', w, ino, s.durable, s'.durable);
    case _ =>
  }

  lemma TempsDistinct(payload: Writer -> Bytes, original: Option<Bytes>, s: State, w: Writer, step: Step, v: Writer)
    requires Inv(payload, original, s) && Enabled(payload, s, w, step) && v != w
    requires HasTemp(StageOf(s, v)) && HasTemp(StageOf(Next(payload, s, w, step), w))
    ensures StageOf(s, v).temp != StageOf(Next(payload, s, w, step), w).temp
  {
    assert StageOk(payload, s, v, StageOf(s, v)) && StageOk(payload, s, w, StageOf(s, w));
  }

  lemma EntriesKept(payload: Writer -> Bytes, original: Option<Bytes>, s: State, w: Writer, step: Step, p: nat)
    requires Inv(payload, original, s) && Enabled(payload, s, w, step) && p < |Next(payload, s, w, step).entries|
    ensures EntryOk(payload, original, Next(payload, s, w, step), Next(payload, s, w, step).entries[p])
  {
    assert StageOk(payload, s, w, StageOf(s, w));
    if p < |s.entries| {
      assert EntryOk(payload, original, s, s.entries[p]);
    }
  }

  lemma StepKeepsInv(payload: Writer -> Bytes, original: Option<Bytes>, s: State, w: Writer, step: Step)
    requires Inv(payload, original, s) && Enabled(payload, s, w, step)
    ensures Inv(payload, original, Next(payload, s, w, step))
  {
    var s' := Next(payload, s, w, step);
    StepMovesOn(payload, original, s, w, step);
    ActorOk(payload, original, s, w, step);
    forall v | v != w
      ensures StageOk(payload, s', v, StageOf(s', v))
    {
      BystanderOk(payload, original, s, w, step, v);
    }
    forall v | v != w && HasTemp(StageOf(s, v)) && HasTemp(StageOf(s', w))
      ensures StageOf(s, v).temp != StageOf(s', w).temp
    {
      TempsDistinct(payload, original, s, w, step, v);
    }
    forall p | 0 <= p < |s'.entries|
      ensures EntryOk(payload, original, s', s'.entries[p])
    {
      EntriesKept(payload, original, s, w, step, p);
    }
  }

  // ---- runs

  ghost predicate IsRun(payload: Writer -> Bytes, s: State, run: seq<(Writer, Step)>, end: State)
    decreases |run|
  {
    if run == [] then s == end
    else Enabled(payload, s, run[0].0, run[0].1) && IsRun(payload, Next(payload, s, run[0].0, run[0].1), run[1..], end)
  }

  lemma {:induction false} RunKeepsInv(payload: Writer -> Bytes, original: Option<Bytes>, s: State, run: seq<(Writer, Step)>, end: State)
    requires Inv(payload, original, s) && IsRun(payload, s, run, end)
    ensures Inv(payload, original, end)
    decreases |run|
  {
    if run != [] {
      StepKeepsInv(payload, original, s, run[0].0, run[0].1);
      RunKeepsInv(payload, original, Next(payload, s, run[0].0, run[0].1), run[1..], end);
    }
  }

  /** The old bytes, from before any installation, or the complete bytes of the writer that made the p-th. */
  ghost predicate OldOrInstalled(payload: Writer -> Bytes, original: Option<Bytes>, s: State, p: nat, seen: Option<Bytes>)
    requires p < |s.entries|
  {
    if p == 0 then seen == original else s.entries[p].Replaced? && seen == Some(payload(s.entries[p].writer))
  }

  /** At every moment of every run, with any number of writers, a reader sees the complete bytes of the writer
      that installed last, or the old bytes if none has; and a crash at that moment would leave those of the
      installation that is on disk. */
  lemma ReplacementIsAtomic(payload: Writer -> Bytes, original: Option<Bytes>, start: State, run: seq<(Writer, Step)>, s: State)
    requires Start(original, start) && IsRun(payload, start, run, s)
    ensures s.durable < |s.entries|
    ensures OldOrInstalled(payload, original, s, |s.entries| - 1, Visible(s))
    ensures OldOrInstalled(payload, original, s, s.durable, AfterCrash(s))
  {
    StartInv(payload, original, start);
    RunKeepsInv(payload, original, start, run, s);
    assert EntryOk(payload, original, s, s.entries[|s.entries| - 1]) && EntryOk(payload, original, s, s.entries[s.durable]);
    OriginalStaysFirst(payload, start, run, s);
    OriginalOnlyFirst(payload, original, start, run, s, |s.entries| - 1);
    OriginalOnlyFirst(payload, original, start, run, s, s.durable);
  }

  lemma {:induction false} OriginalStaysFirst(payload: Writer -> Bytes, start: State, run: seq<(Writer, Step)>, s: State)
    requires |start.entries| > 0 && IsRun(payload, start, run, s)
    ensures |s.entries| > 0 && s.entries[0] == start.entries[0]
    decreases |run|
  {
    if run != [] {
      OriginalStaysFirst(payload, Next(payload, start, run[0].0, run[0].1), run[1..], s);
    }
  }

  /** A write reported as successful is on disk: from then on a crash leaves its bytes or those of a
      writer that installed after it. */
  lemma SuccessIsDurable(payload: Writer -> Bytes, original: Option<Bytes>, start: State, run: seq<(Writer, Step)>, s: State, w: Writer)
    requires Start(original, start) && IsRun(payload, start, run, s) && StageOf(s, w).Done?
    ensures s.durable < |s.entries|
    ensures exists p, q, v, ino, ino' :: 0 < p <= q == s.durable && s.entries[p] == Replaced(w, ino)
                                         && s.entries[q] == Replaced(v, ino') && AfterCrash(s) == Some(payload(v))
  {
    StartInv(payload, original, start);
    RunKeepsInv(payload, original, start, run, s);
    assert StageOk(payload, s, w, StageOf(s, w));
    var ino := StageOf(s, w).ino;
    var p :| 0 < p < |s.entries| && p <= s.durable && s.entries[p] == Replaced(w, ino);
    assert EntryOk(payload, original, s, s.entries[s.durable]);
    OriginalOnlyFirst(payload, original, start, run, s, s.durable);
    var v, ino' := s.entries[s.durable].writer, s.entries[s.durable].ino;
    assert s.entries[s.durable] == Replaced(v, ino') && AfterCrash(s) == Some(payload(v));
  }

  lemma {:induction false} OriginalOnlyFirst(payload: Writer -> Bytes, original: Option<Bytes>, start: State, run: seq<(Writer, Step)>, s: State, p: nat)
    requires |start.entries| > 0 && IsRun(payload, start, run, s)
    requires forall q :: 0 < q < |start.entries| ==> start.entries[q].Replaced?
    ensures |start.entries| <= |s.entries|
    ensures 0 < p < |s.entries| ==> s.entries[p].Replaced?
    decreases |run|
  {
    if run != [] {
      OriginalOnlyFirst(payload, original, Next(payload, start, run[0].0, run[0].1), run[1..], s, p);
    }
  }

  /** A write that failed before its installation has not touched the destination, and unless cleaning up
      failed too its temporary file is gone; one that failed afterwards has installed its complete bytes. */
  lemma FailureIsHarmless(payload: Writer -> Bytes, original: Option<Bytes>, start: State, run: seq<(Writer, Step)>, s: State, w: Writer)
    requires Start(original, start) && IsRun(payload, start, run, s)
    ensures StageOf(s, w).Failing? || StageOf(s, w).Failed? ==> NeverInstalled(s, w)
    ensures StageOf(s, w).Failed? && StageOf(s, w).cleaned && StageOf(s, w).created.Some? ==>
              Unlinked(s, StageOf(s, w).created.value)
    ensures StageOf(s, w).Uncertain? ==>
              InstalledBy(s, w, StageOf(s, w).ino, |s.entries|) && Unlinked(s, StageOf(s, w).ino)
              && Complete(s, StageOf(s, w).ino, payload(w))
  {
    StartInv(payload, original, start);
    RunKeepsInv(payload, original, start, run, s);
    assert StageOk(payload, s, w, StageOf(s, w));
    if StageOf(s, w).Uncertain? {
      var p :| 0 < p < |s.entries| && p <= |s.entries| && s.entries[p] == Replaced(w, StageOf(s, w).ino);
      assert EntryOk(payload, original, s, s.entries[p]);
    }
  }

  // ---- cleaning up, from the steps that were taken

  /** A writer in this stage works on this file, or has. */
  predicate Handles(stage: Stage, ino: Inode) {
    match stage
    case Starting => false
    case Failed(created, _) => created == Some(ino)
    case _ => stage.ino == ino
  }

  ghost predicate Takes(run: seq<(Writer, Step)>, w: Writer, step: Step) {
    exists i :: 0 <= i < |run| && run[i] == (w, step)
  }

  lemma TakesLater(run: seq<(Writer, Step)>, w: Writer, step: Step)
    requires run != []
    ensures Takes(run, w, step) <==> run[0] == (w, step) || Takes(run[1..], w, step)
  {
    if i :| 0 <= i < |run| && run[i] == (w, step) {
      assert i > 0 ==> run[1..][i - 1] == (w, step);
    }
    if i :| 0 <= i < |run[1..]| && run[1..][i] == (w, step) {
      assert run[i + 1] == (w, step);
    }
  }

  lemma StepHandles(payload: Writer -> Bytes, s: State, v: Writer, step: Step, w: Writer, ino: Inode)
    requires Enabled(payload, s, v, step) && Handles(StageOf(s, w), ino)
    ensures Handles(StageOf(Next(payload, s, v, step), w), ino)
  {
  }

  lemma {:induction false} RunHandles(payload: Writer -> Bytes, s: State, run: seq<(Writer, Step)>, end: State, w: Writer, ino: Inode)
    requires IsRun(payload, s, run, end) && Handles(StageOf(s, w), ino)
    ensures Handles(StageOf(end, w), ino)
    decreases |run|
  {
    if run != [] {
      StepHandles(payload, s, run[0].0, run[0].1, w, ino);
      RunHandles(payload, Next(payload, s, run[0].0, run[0].1), run[1..], end, w, ino);
    }
  }

  lemma {:induction false} CreatorHandles(payload: Writer -> Bytes, s: State, run: seq<(Writer, Step)>, end: State, w: Writer, temp: Name, ino: Inode)
    requires IsRun(payload, s, run, end) && Takes(run, w, Create(temp, ino))
    ensures Handles(StageOf(end, w), ino)
    decreases |run|
  {
    var s', rest := Next(payload, s, run[0].0, run[0].1), run[1..];
    TakesLater(run, w, Create(temp, ino));
    if run[0] == (w, Create(temp, ino)) {
      RunHandles(payload, s', rest, end, w, ino);
    } else {
      CreatorHandles(payload, s', rest, end, w, temp, ino);
    }
  }

  /** A writer that created its temporary file and has failed before the installation without a cleanup error
      has left no entry for the file in the directory. */
  lemma FailureLeavesNoFile(payload: Writer -> Bytes, original: Option<Bytes>, start: State, run: seq<(Writer, Step)>, s: State,
                            w: Writer, temp: Name, ino: Inode)
    requires Start(original, start) && IsRun(payload, start, run, s)
    requires Takes(run, w, Create(temp, ino)) && StageOf(s, w).Failed? && StageOf(s, w).cleaned
    ensures Unlinked(s, ino)
  {
    CreatorHandles(payload, start, run, s, w, temp, ino);
    FailureIsHarmless(payload, original, start, run, s, w);
  }

  lemma {:induction false} FailedStays(payload: Writer -> Bytes, s: State, run: seq<(Writer, Step)>, end: State, w: Writer)
    requires IsRun(payload, s, run, end) && StageOf(s, w).Failed?
    ensures StageOf(end, w) == StageOf(s, w)
    decreases |run|
  {
    if run != [] {
      FailedStays(payload, Next(payload, s, run[0].0, run[0].1), run[1..], end, w);
    }
  }

  lemma {:induction false} HandlerCleans(payload: Writer -> Bytes, s: State, run: seq<(Writer, Step)>, end: State, w: Writer, ino: Inode)
    requires IsRun(payload, s, run, end) && Handles(StageOf(s, w), ino) && !StageOf(s, w).Failed? && StageOf(end, w).Failed?
    ensures Takes(run, w, Cleanup(StageOf(end, w).cleaned))
    decreases |run|
  {
    var s', rest := Next(payload, s, run[0].0, run[0].1), run[1..];
    StepHandles(payload, s, run[0].0, run[0].1, w, ino);
    TakesLater(run, w, Cleanup(StageOf(end, w).cleaned));
    if StageOf(s', w).Failed? {
      FailedStays(payload, s', rest, end, w);
    } else {
      HandlerCleans(payload, s', rest, end, w, ino);
    }
  }

  /** A writer that created a file fails for good only by trying to remove it, and reports whether it could. */
  lemma {:induction false} FailureCleansUp(payload: Writer -> Bytes, s: State, run: seq<(Writer, Step)>, end: State, w: Writer, temp: Name, ino: Inode)
    requires IsRun(payload, s, run, end) && Takes(run, w, Create(temp, ino)) && StageOf(end, w).Failed?
    ensures Takes(run, w, Cleanup(StageOf(end, w).cleaned))
    decreases |run|
  {
    var s', rest := Next(payload, s, run[0].0, run[0].1), run[1..];
    TakesLater(run, w, Create(temp, ino));
    TakesLater(run, w, Cleanup(StageOf(end, w).cleaned));
    if run[0] == (w, Create(temp, ino)) {
      HandlerCleans(payload, s', rest, end, w, ino);
    } else {
      FailureCleansUp(payload, s', rest, end, w, temp, ino);
    }
  }

  // ---- an undisturbed write

  lemma Prepend(payload: Writer -> Bytes, s: State, w: Writer, step: Step, run: seq<(Writer, Step)>, end: State)
    requires Enabled(payload, s, w, step) && IsRun(payload, Next(payload, s, w, step), run, end)
    ensures IsRun(payload, s, [(w, step)] + run, end)
  {
    assert ([(w, step)] + run)[1..] == run;
  }

  ghost predicate Goes(payload: Writer -> Bytes, s: State, w: Writer, step: Step, s': State) {
    Enabled(payload, s, w, step) && s' == Next(payload, s, w, step)
  }

  /** Five steps of one writer. */
  lemma FiveSteps(payload: Writer -> Bytes, w: Writer, a: Step, b: Step, c: Step, d: Step, e: Step,
                  s: State, s1: State, s2: State, s3: State, s4: State, s5: State)
    requires Goes(payload, s, w, a, s1) && Goes(payload, s1, w, b, s2) && Goes(payload, s2, w, c, s3)
    requires Goes(payload, s3, w, d, s4) && Goes(payload, s4, w, e, s5)
    ensures IsRun(payload, s, [(w, a), (w, b), (w, c), (w, d), (w, e)], s5)
  {
    Prepend(payload, s4, w, e, [], s5);
    Prepend(payload, s3, w, d, [(w, e)], s5);
    assert [(w, d)] + [(w, e)] == [(w, d), (w, e)];
    Prepend(payload, s2, w, c, [(w, d), (w, e)], s5);
    assert [(w, c)] + [(w, d), (w, e)] == [(w, c), (w, d), (w, e)];
    Prepend(payload, s1, w, b, [(w, c), (w, d), (w, e)], s5);
    assert [(w, b)] + [(w, c), (w, d), (w, e)] == [(w, b), (w, c), (w, d), (w, e)];
    Prepend(payload, s, w, a, [(w, b), (w, c), (w, d), (w, e)], s5);
    assert [(w, a)] + [(w, b), (w, c), (w, d), (w, e)] == [(w, a), (w, b), (w, c), (w, d), (w, e)];
  }

  /** The temporary file after it is created, written and synchronized. */
  lemma WrittenFile(payload: Writer -> Bytes, s: State, w: Writer, temp: Name, ino: Inode) returns (s1: State, s2: State, s3: State)
    requires StageOf(s, w).Starting? && temp !in s.temps && ino !in s.files
    ensures Goes(payload, s, w, Create(temp, ino), s1) && Goes(payload, s1, w, Write(payload(w)), s2) && Goes(payload, s2, w, SyncTemp, s3)
    ensures StageOf(s3, w) == Synced(temp, ino) && s3.temps == s.temps[temp := ino] && s3.entries == s.entries
    ensures Complete(s3, ino, payload(w))
  {
    assert [] + payload(w) == payload(w);
    s1 := Next(payload, s, w, Create(temp, ino));
    s2 := Next(payload, s1, w, Write(payload(w)));
    s3 := Next(payload, s2, w, SyncTemp);
  }

  lemma InstalledFile(payload: Writer -> Bytes, s: State, w: Writer, temp: Name, ino: Inode) returns (s1: State, s2: State)
    requires StageOf(s, w) == Synced(temp, ino) && Complete(s, ino, payload(w))
    ensures Goes(payload, s, w, Rename, s1) && Goes(payload, s1, w, SyncParent, s2)
    ensures StageOf(s2, w).Done? && s2.durable < |s2.entries| && s2.temps == s.temps - {temp}
    ensures Visible(s2) == AfterCrash(s2) == Some(payload(w))
  {
    s1 := Next(payload, s, w, Rename);
    s2 := Next(payload, s1, w, SyncParent);
    assert s2.entries[|s.entries|] == Replaced(w, ino);
  }

  lemma RemovedFile(payload: Writer -> Bytes, s: State, w: Writer, temp: Name, ino: Inode) returns (s1: State, s2: State)
    requires StageOf(s, w) == Synced(temp, ino)
    ensures Goes(payload, s, w, Fail, s1) && Goes(payload, s1, w, Cleanup(true), s2)
    ensures StageOf(s2, w).Failed? && s2.temps == s.temps - {temp} && s2.entries == s.entries
  {
    s1 := Next(payload, s, w, Fail);
    s2 := Next(payload, s1, w, Cleanup(true));
  }

  lemma AddedAndRemoved(temps: map<Name, Inode>, temp: Name, ino: Inode)
    requires temp !in temps
    ensures temps[temp := ino] - {temp} == temps
  {
  }

  /** From every state, a writer that has not started can write, install and synchronize its bytes: they are
      then what a reader sees and what a crash leaves. */
  lemma WriteSucceeds(payload: Writer -> Bytes, s: State, w: Writer, temp: Name, ino: Inode)
    requires StageOf(s, w).Starting? && temp !in s.temps && ino !in s.files
    ensures exists end :: IsRun(payload, s, [(w, Create(temp, ino)), (w, Write(payload(w))), (w, SyncTemp), (w, Rename), (w, SyncParent)], end)
                          && StageOf(end, w).Done? && end.durable < |end.entries| && end.temps == s.temps
                          && Visible(end) == AfterCrash(end) == Some(payload(w))
  {
    var s1, s2, s3 := WrittenFile(payload, s, w, temp, ino);
    var s4, end := InstalledFile(payload, s3, w, temp, ino);
    AddedAndRemoved(s.temps, temp, ino);
    FiveSteps(payload, w, Create(temp, ino), Write(payload(w)), SyncTemp, Rename, SyncParent, s, s1, s2, s3, s4, end);
  }

  /** And if its installation fails, it can clean up: nothing in the directory has changed. */
  lemma FailedWriteCleansUp(payload: Writer -> Bytes, s: State, w: Writer, temp: Name, ino: Inode)
    requires StageOf(s, w).Starting? && temp !in s.temps && ino !in s.files
    ensures exists end :: IsRun(payload, s, [(w, Create(temp, ino)), (w, Write(payload(w))), (w, SyncTemp), (w, Fail), (w, Cleanup(true))], end)
                          && StageOf(end, w).Failed? && end.temps == s.temps && end.entries == s.entries
  {
    var s1, s2, s3 := WrittenFile(payload, s, w, temp, ino);
    var s4, end := RemovedFile(payload, s3, w, temp, ino);
    AddedAndRemoved(s.temps, temp, ino);
    FiveSteps(payload, w, Create(temp, ino), Write(payload(w)), SyncTemp, Fail, Cleanup(true), s, s1, s2, s3, s4, end);
  }
}
