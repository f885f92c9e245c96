/** Any number of threads sharing one recorder: mutations, revision bumps and checkpoint writes as
    interleaved steps. */
module Checkpoints {
  import opened Outcomes
  import opened Economics

  type Thread = nat
  type Mutation = string

  /** The shared economics: the mutations applied so far, in order, and the checkpoint count. */
  datatype Memory = Memory(history: seq<Mutation>, checkpoints: nat)

  /** Where a thread is. Changed(at): its mutation history[at] is applied, the revision not yet bumped.
      Locked, Loaded and Writing hold the checkpoint lock; Writing also holds the lock on the economics. */
  datatype Place =
    | Idle
    | Changed(at: nat)
    | Wants(force: bool)
    | Locked(force: bool)
    | Loaded(force: bool, rev: nat)
    | Writing(rev: nat, snapshot: Memory, installed: bool)

  /** `bumps[i]` is the position in the history of the mutation behind revision i + 1. */
  datatype State = State(
    memory: Memory, bumps: seq<nat>, places: map<Thread, Place>,
    persisted: Option<nat>, file: Option<Memory>)

  datatype Step =
    | Change(m: Mutation)
    | Bump
    | Force
    | Lock
    | Load
    | Skip
    | BeginWrite
    | Install
    | Finish(ok: bool)

  function At(s: State, t: Thread): Place {
    if t in s.places then s.places[t] else Idle
  }

  function Put(s: State, t: Thread, p: Place): State {
    s.(places := s.places[t := p])
  }

  predicate HoldsCheckpoint(p: Place) {
    p.Locked? || p.Loaded? || p.Writing?
  }

  ghost predicate CheckpointFree(s: State) {
    forall t :: t in s.places ==> !HoldsCheckpoint(s.places[t])
  }

  ghost predicate EconomicsFree(s: State) {
    forall t :: t in s.places ==> !s.places[t].Writing?
  }

  ghost predicate Enabled(s: State, t: Thread, step: Step) {
    match step
    case Change(_) => At(s, t).Idle? && EconomicsFree(s)
    case Bump => At(s, t).Changed?
    case Force => At(s, t).Idle?
    case Lock => At(s, t).Wants? && CheckpointFree(s)
    case Load => At(s, t).Locked?
    case Skip =>
      // Nothing new, or throttled: only an unforced checkpoint after an earlier write can be.
      At(s, t).Loaded? && (s.persisted == Some(At(s, t).rev) || (!At(s, t).force && s.persisted.Some?))
    case BeginWrite => At(s, t).Loaded? && s.persisted != Some(At(s, t).rev)
    case Install => At(s, t).Writing? && !At(s, t).installed
    case Finish(ok) => At(s, t).Writing? && (ok ==> At(s, t).installed)
  }

  function Next(s: State, t: Thread, step: Step): State
    requires Enabled(s, t, step)
  {
    match step
    case Change(m) => Put(s, t, Changed(|s.memory.history|)).(memory := s.memory.(history := s.memory.history + [m]))
    case Bump => Put(s, t, Wants(false)).(bumps := s.bumps + [At(s, t).at])
    case Force => Put(s, t, Wants(true))
    case Lock => Put(s, t, Locked(At(s, t).force))
    case Load => Put(s, t, Loaded(At(s, t).force, |s.bumps|))
    case Skip => Put(s, t, Idle)
    case BeginWrite =>
      var counted := s.memory.(checkpoints := s.memory.checkpoints + 1);
      Put(s, t, Writing(At(s, t).rev, counted, false)).(memory := counted)
    case Install => Put(s, t, At(s, t).(installed := true)).(file := Some(At(s, t).snapshot))
    case Finish(ok) =>
      if ok then Put(s, t, Idle).(persisted := Some(At(s, t).rev))
      else Put(s, t, Idle).(memory := s.memory.(checkpoints := SaturatingSub(s.memory.checkpoints, 1)))
  }

  function Start(history: seq<Mutation>): State {
    State(Memory(history, 0), seq(|history|, i => i), map[], None, None)
  }

  // ---- invariants

  /** The mutation at position k was bumped at or after revision rev. */
  ghost predicate BumpedFrom(s: State, rev: nat, k: nat) {
    exists i :: rev <= i < |s.bumps| && s.bumps[i] == k
  }

  ghost predicate StillUnbumped(s: State, k: nat) {
    exists t :: t in s.places && s.places[t] == Changed(k)
  }

  ghost predicate PlaceOk(s: State, p: Place) {
    match p
    case Changed(at) => at < |s.memory.history|
    case Loaded(_, rev) => rev <= |s.bumps| && (s.persisted.Some? ==> s.persisted.value <= rev)
    case Writing(rev, snapshot, installed) =>
      && rev <= |s.bumps| && (s.persisted.Some? ==> s.persisted.value < rev)
      && snapshot == s.memory && (installed ==> s.file == Some(snapshot))
    case _ => true
  }

  /** What is in the file once revision `rev` was persisted: all that was bumped up to rev. What it
      misses was bumped later or is not bumped yet. */
  ghost predicate FileCovers(s: State, file: Memory, rev: nat) {
    && rev <= |s.bumps|
    && (forall i :: 0 <= i < rev ==> s.bumps[i] < |file.history|)
    && (forall k :: |file.history| <= k < |s.memory.history| ==> BumpedFrom(s, rev, k) || StillUnbumped(s, k))
    && (rev == |s.bumps| ==> file.checkpoints == s.memory.checkpoints)
  }

  ghost predicate Inv(s: State) {
    && (forall i :: 0 <= i < |s.bumps| ==> s.bumps[i] < |s.memory.history|)
    && (forall t :: t in s.places ==> PlaceOk(s, s.places[t]))
    && (forall t, u :: t in s.places && u in s.places && HoldsCheckpoint(s.places[t]) && HoldsCheckpoint(s.places[u]) ==> t == u)
    && (s.file.Some? ==> s.file.value.history <= s.memory.history)
    && (s.persisted.Some? ==> s.file.Some? && FileCovers(s, s.file.value, s.persisted.value))
  }

  lemma StartInv(history: seq<Mutation>)
    ensures Inv(Start(history))
  {
  }

  lemma StepKeepsInv(s: State, t: Thread, step: Step)
    requires Inv(s) && Enabled(s, t, step)
    ensures Inv(Next(s, t, step))
  {
    if step.Change? {
      ChangeCovers(s, t, step);
    } else if step.Bump? {
      BumpCovers(s, t);
    } else if step.BeginWrite? || step.Install? || step.Finish? {
      WritingCovers(s, t, step);
    } else {
      WaitingCovers(s, t, step);
    }
  }

  lemma PendingKept(s: State, t: Thread, step: Step)
    requires Enabled(s, t, step) && !step.Change? && !step.Bump?
    ensures forall k :: StillUnbumped(s, k) ==> StillUnbumped(Next(s, t, step), k)
    ensures forall rev, k :: BumpedFrom(s, rev, k) ==> BumpedFrom(Next(s, t, step), rev, k)
  {
    var s' := Next(s, t, step);
    forall k | StillUnbumped(s, k)
      ensures StillUnbumped(s', k)
    {
      var u :| u in s.places && s.places[u] == Changed(k);
      assert u in s'.places && s'.places[u] == Changed(k);
    }
  }

  /** Steps up to the write leave everything but their thread's place alone. */
  lemma WaitingCovers(s: State, t: Thread, step: Step)
    requires Inv(s) && Enabled(s, t, step) && (step.Force? || step.Lock? || step.Load? || step.Skip?)
    ensures Inv(Next(s, t, step))
  {
    PendingKept(s, t, step);
  }

  /** The steps of a write install a complete snapshot, or leave the file as it was. */
  lemma WritingCovers(s: State, t: Thread, step: Step)
    requires Inv(s) && Enabled(s, t, step) && (step.BeginWrite? || step.Install? || step.Finish?)
    ensures Inv(Next(s, t, step))
  {
    PendingKept(s, t, step);
  }

  lemma ChangeCovers(s: State, t: Thread, step: Step)
    requires Inv(s) && Enabled(s, t, step) && step.Change?
    ensures Inv(Next(s, t, step))
  {
    var s' := Next(s, t, step);
    forall k | StillUnbumped(s, k) || k == |s.memory.history|
      ensures StillUnbumped(s', k)
    {
      if k == |s.memory.history| {
        assert s'.places[t] == Changed(k);
      } else {
        var u :| u in s.places && s.places[u] == Changed(k);
        assert u in s'.places && s'.places[u] == Changed(k);
      }
    }
    forall rev, k | BumpedFrom(s, rev, k)
      ensures BumpedFrom(s', rev, k)
    {
    }
  }

  lemma BumpCovers(s: State, t: Thread)
    requires Inv(s) && Enabled(s, t, Bump)
    ensures Inv(Next(s, t, Bump))
  {
    var s' := Next(s, t, Bump);
    forall k, rev: nat | rev <= |s.bumps| && (BumpedFrom(s, rev, k) || StillUnbumped(s, k))
      ensures BumpedFrom(s', rev, k) || StillUnbumped(s', k)
    {
      if i :| rev <= i < |s.bumps| && s.bumps[i] == k {
        assert s'.bumps[i] == k;
      } else {
        var u :| u in s.places && s.places[u] == Changed(k);
        if u == t {
          assert s'.bumps[|s.bumps|] == k;
        } else {
          assert u in s'.places && s'.places[u] == Changed(k);
        }
      }
    }
  }

  // ---- runs

  ghost predicate IsRun(s: State, run: seq<(Thread, Step)>, end: State)
    decreases |run|
  {
    if run == [] then s == end
    else Enabled(s, run[0].0, run[0].1) && IsRun(Next(s, run[0].0, run[0].1), run[1..], end)
  }

  lemma {:induction false} RunKeepsInv(s: State, run: seq<(Thread, Step)>, end: State)
    requires Inv(s) && IsRun(s, run, end)
    ensures Inv(end)
    decreases |run|
  {
    if run != [] {
      StepKeepsInv(s, run[0].0, run[0].1);
      RunKeepsInv(Next(s, run[0].0, run[0].1), run[1..], end);
    }
  }

  /** No update is lost: after any interleaving the file holds a prefix of the applied mutations that has every
      mutation bumped up to the persisted revision; and with that revision current and nobody between
      changing and bumping, the file is exactly what is in memory. */
  lemma NoLostUpdate(history: seq<Mutation>, run: seq<(Thread, Step)>, s: State)
    requires IsRun(Start(history), run, s)
    ensures s.file.Some? ==> s.file.value.history <= s.memory.history
    ensures s.persisted.Some? ==>
              s.file.Some? && s.persisted.value <= |s.bumps|
              && forall i :: 0 <= i < s.persisted.value ==> s.bumps[i] < |s.file.value.history|
    ensures s.persisted == Some(|s.bumps|) && (forall t :: t in s.places ==> !s.places[t].Changed?) ==>
              s.file == Some(s.memory)
  {
    StartInv(history);
    RunKeepsInv(Start(history), run, s);
    if s.persisted == Some(|s.bumps|) && forall t :: t in s.places ==> !s.places[t].Changed? {
      CurrentFileIsMemory(s);
    }
  }

  lemma CurrentFileIsMemory(s: State)
    requires Inv(s) && s.persisted == Some(|s.bumps|) && forall t :: t in s.places ==> !s.places[t].Changed?
    ensures s.file == Some(s.memory)
  {
    var file := s.file.value;
    assert !BumpedFrom(s, |s.bumps|, |file.history|) && !StillUnbumped(s, |file.history|);
    assert |file.history| == |s.memory.history|;
    assert file.history == s.memory.history;
  }

  /** A write never takes a mutation out of the file, whether it is reported as successful or not. */
  lemma {:induction false} FileOnlyGrows(s: State, run: seq<(Thread, Step)>, end: State)
    requires Inv(s) && IsRun(s, run, end) && s.file.Some?
    ensures end.file.Some? && s.file.value.history <= end.file.value.history
    decreases |run|
  {
    if run != [] {
      StepKeepsInv(s, run[0].0, run[0].1);
      FileOnlyGrows(Next(s, run[0].0, run[0].1), run[1..], end);
    }
  }

  ghost predicate AllIdle(s: State) {
    forall t :: t in s.places ==> s.places[t].Idle?
  }

  /** A thread alone gets through to the loaded revision. */
  lemma ReachLoaded(s: State, t: Thread) returns (run: seq<(Thread, Step)>, loaded: State)
    requires AllIdle(s)
    ensures IsRun(s, run, loaded)
    ensures loaded == s.(places := s.places[t := Loaded(true, |s.bumps|)])
  {
    var s1 := Next(s, t, Force);
    var s2 := Next(s1, t, Lock);
    loaded := Next(s2, t, Load);
    assert IsRun(s, [], s);
    AppendStep(s, [], s, t, Force);
    AppendStep(s, [(t, Force)], s1, t, Lock);
    AppendStep(s, [(t, Force)] + [(t, Lock)], s2, t, Load);
    run := [(t, Force)] + [(t, Lock)] + [(t, Load)];
  }

  lemma WriteLoaded(s: State, run: seq<(Thread, Step)>, loaded: State, t: Thread)
    returns (run': seq<(Thread, Step)>, end: State)
    requires IsRun(s, run, loaded) && At(loaded, t).Loaded? && loaded.persisted != Some(At(loaded, t).rev)
    ensures IsRun(s, run', end) && end.persisted == Some(At(loaded, t).rev)
    ensures end.places == loaded.places[t := Idle] && end.bumps == loaded.bumps
    ensures end.memory.history == loaded.memory.history
  {
    var s1 := Next(loaded, t, BeginWrite);
    var s2 := Next(s1, t, Install);
    end := Next(s2, t, Finish(true));
    AppendStep(s, run, loaded, t, BeginWrite);
    AppendStep(s, run + [(t, BeginWrite)], s1, t, Install);
    AppendStep(s, run + [(t, BeginWrite)] + [(t, Install)], s2, t, Finish(true));
    run' := run + [(t, BeginWrite)] + [(t, Install)] + [(t, Finish(true))];
  }

  /** The final forced checkpoint: from any reachable state in which all threads are idle, one thread's
      forced checkpoint leaves the file equal to memory. */
  lemma ForcedCheckpointCatchesUp(s: State, t: Thread)
    requires Inv(s) && AllIdle(s)
    ensures exists run, end :: IsRun(s, run, end) && end.file == Some(end.memory) && end.memory.history == s.memory.history
  {
    var run, loaded := ReachLoaded(s, t);
    var end;
    if s.persisted == Some(|s.bumps|) {
      end := Next(loaded, t, Skip);
      AppendStep(s, run, loaded, t, Skip);
      run := run + [(t, Skip)];
    } else {
      run, end := WriteLoaded(s, run, loaded, t);
    }
    RunKeepsInv(s, run, end);
    CurrentFileIsMemory(end);
  }

  lemma {:induction false} AppendStep(s: State, run: seq<(Thread, Step)>, mid: State, t: Thread, step: Step)
    requires IsRun(s, run, mid) && Enabled(mid, t, step)
    ensures IsRun(s, run + [(t, step)], Next(mid, t, step))
    decreases |run|
  {
    if run == [] {
      assert ([] + [(t, step)])[1..] == [];
    } else {
      AppendStep(Next(s, run[0].0, run[0].1), run[1..], mid, t, step);
      assert (run + [(t, step)])[1..] == run[1..] + [(t, step)];
    }
  }
}
