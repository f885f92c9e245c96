/** Recording from several threads, continued: which interleavings record how often a duplicate ran. */
module RecordingExactness {
  import opened Outcomes
  import opened CommandLog
  import opened Economics
  import opened RecordingRace

  // ---- when the recorded executions are exact

  /** The charge of this key that a step applies to the economics; 0 if it applies none. */
  function Applied(s: State, step: Step, key: string): nat
    requires Enabled(s, step)
  {
    if step.ApplyStep? && s.pending[step.thread].command.cacheKey == key then Owed(s, step.thread) else 0
  }

  /** Somewhere in the run, a charge of this key from the second on is applied. */
  ghost predicate AppliesLater(s: State, run: seq<Step>, end: State, key: string)
    requires IsRun(s, run, end)
    decreases |run|
  {
    run != [] && (Applied(s, run[0], key) >= 2 || AppliesLater(Next(s, run[0]), run[1..], end, key))
  }

  /** The n-th charge of this key is applied before another one from the second on. */
  ghost predicate Overtakes(s: State, run: seq<Step>, end: State, key: string, n: nat)
    requires IsRun(s, run, end)
    decreases |run|
  {
    run != [] &&
    var (next, rest) := (Next(s, run[0]), run[1..]);
    (Applied(s, run[0], key) == n && AppliesLater(next, rest, end, key)) || Overtakes(next, rest, end, key, n)
  }

  /** No two threads owe the same run of a key. */
  ghost predicate OwedOnce(s: State) {
    forall t, u, key, n :: Owes(s, t, key, n) && Owes(s, u, key, n) ==> t == u
  }

  lemma OthersOwe(s: State, step: Step, t: Thread, key: string, n: nat)
    requires Enabled(s, step) && t != step.thread
    ensures Owes(Next(s, step), t, key, n) <==> Owes(s, t, key, n)
  {
  }

  lemma OwedBounded(s: State, t: Thread, key: string, n: nat)
    requires Inv(s) && Owes(s, t, key, n)
    ensures 0 < n <= ChargedRuns(s, key)
  {
    assert PendingOk(s, s.pending[t]);
  }

  /** What the thread of a step owes afterwards: the new run of the key it charged, or nothing. */
  lemma ActorOwes(s: State, step: Step, key: string, n: nat)
    requires Inv(s) && Fits(s) && Enabled(s, step)
    ensures Owes(Next(s, step), step.thread, key, n) <==>
            step.ChargeStep? && CommandLog.Runs(step.command, key) && n == ChargedRuns(s, key) + 1
  {
    if step.ChargeStep? {
      RunsBounded(s, step.command.cacheKey);
    }
  }

  lemma AppliedIsOwed(s: State, step: Step, key: string)
    requires Enabled(s, step) && Applied(s, step, key) > 0
    ensures step.ApplyStep? && Owes(s, step.thread, key, Applied(s, step, key))
  {
  }

  lemma StepKeepsOwedOnce(s: State, step: Step)
    requires Inv(s) && Fits(s) && Enabled(s, step) && OwedOnce(s)
    ensures OwedOnce(Next(s, step))
  {
    var s' := Next(s, step);
    forall t, u, key, n: nat | Owes(s', t, key, n) && Owes(s', u, key, n)
      ensures t == u
    {
      ActorOwes(s, step, key, n);
      if t != step.thread {
        OthersOwe(s, step, t, key, n);
        OwedBounded(s, t, key, n);
      }
      if u != step.thread {
        OthersOwe(s, step, u, key, n);
        OwedBounded(s, u, key, n);
      }
    }
  }

  lemma StepKeepsInv(s: State, step: Step)
    requires Inv(s) && Fits(s) && Enabled(s, step)
    ensures Inv(Next(s, step))
  {
    match step
    case ChargeStep(t, c) => ChargeKeepsInv(s, t, c);
    case ApplyStep(t) => ApplyKeepsInv(s, t);
  }

  lemma StepRuns(s: State, step: Step, key: string)
    requires Inv(s) && Fits(s) && Enabled(s, step)
    ensures ChargedRuns(Next(s, step), key) == ChargedRuns(s, key) + if step.ChargeStep? && CommandLog.Runs(step.command, key) then 1 else 0
  {
    if step.ChargeStep? {
      RunsBounded(s, step.command.cacheKey);
    }
  }

  lemma {:induction false} RunsGrow(s: State, run: seq<Step>, end: State, key: string)
    requires Inv(s) && IsRun(s, run, end)
    ensures ChargedRuns(s, key) <= ChargedRuns(end, key)
    decreases |run|
  {
    if run != [] {
      StepKeepsInv(s, run[0]);
      StepRuns(s, run[0], key);
      RunsGrow(Next(s, run[0]), run[1..], end, key);
    }
  }

  /** The n-th run of this key, its last, has been charged and applied. */
  ghost predicate Settled(s: State, end: State, key: string, n: nat) {
    ChargedRuns(s, key) == ChargedRuns(end, key) == n && forall t :: !Owes(s, t, key, n)
  }

  lemma NobodyStartsToOwe(s: State, step: Step, key: string, n: nat)
    requires Inv(s) && Fits(s) && Enabled(s, step) && n <= ChargedRuns(s, key)
    requires forall t :: t != step.thread ==> !Owes(s, t, key, n)
    ensures forall t :: !Owes(Next(s, step), t, key, n)
  {
    ActorOwes(s, step, key, n);
    forall t
      ensures !Owes(Next(s, step), t, key, n)
    {
      if t != step.thread {
        OthersOwe(s, step, t, key, n);
      }
    }
  }

  lemma AppliedIsLower(s: State, step: Step, key: string, n: nat)
    requires Inv(s) && Enabled(s, step) && n == ChargedRuns(s, key) > 0 && forall t :: !Owes(s, t, key, n)
    ensures Applied(s, step, key) < n
  {
    if Applied(s, step, key) > 0 {
      AppliedIsOwed(s, step, key);
      OwedBounded(s, step.thread, key, Applied(s, step, key));
    }
  }

  lemma StaysSettled(s: State, run: seq<Step>, end: State, key: string, n: nat)
    requires Inv(s) && IsRun(s, run, end) && run != [] && Settled(s, end, key, n) && n > 0
    ensures Settled(Next(s, run[0]), end, key, n) && Applied(s, run[0], key) < n
  {
    StepKeepsInv(s, run[0]);
    StepRuns(s, run[0], key);
    RunsGrow(Next(s, run[0]), run[1..], end, key);
    NobodyStartsToOwe(s, run[0], key, n);
    AppliedIsLower(s, run[0], key, n);
  }

  /** What the application of a charge from the second on leaves behind. */
  lemma AppliedIsLast(s: State, step: Step, key: string)
    requires Enabled(s, step) && Applied(s, step, key) >= 2
    ensures key in Next(s, step).last && Next(s, step).last[key] == Applied(s, step, key)
  {
  }

  /** Any other step leaves what was applied last. */
  lemma OtherKeepsLast(s: State, step: Step, key: string)
    requires Enabled(s, step) && Applied(s, step, key) < 2
    ensures key in Next(s, step).last <==> key in s.last
    ensures key in s.last ==> Next(s, step).last[key] == s.last[key]
  {
  }

  /** Once the last run of a key is settled, what was applied last stays, or a lower charge replaces it for good. */
  lemma {:induction false} LastAfterSettled(s: State, run: seq<Step>, end: State, key: string, n: nat)
    requires Inv(s) && IsRun(s, run, end) && Settled(s, end, key, n) && n >= 2
    ensures AppliesLater(s, run, end, key) ==> key in end.last && end.last[key] != n
    ensures !AppliesLater(s, run, end, key) ==> (key in end.last <==> key in s.last)
    ensures !AppliesLater(s, run, end, key) && key in s.last ==> end.last[key] == s.last[key]
    decreases |run|
  {
    if run != [] {
      StepKeepsInv(s, run[0]);
      StaysSettled(s, run, end, key, n);
      LastAfterSettled(Next(s, run[0]), run[1..], end, key, n);
      if Applied(s, run[0], key) >= 2 {
        AppliedIsLast(s, run[0], key);
      } else {
        OtherKeepsLast(s, run[0], key);
      }
    }
  }

  /** At the end of a run the last charge applied for a key is its highest, unless that was overtaking. */
  lemma {:induction false} LastUnlessOvertaking(s: State, run: seq<Step>, end: State, key: string, n: nat)
    requires Inv(s) && OwedOnce(s) && IsRun(s, run, end) && end.pending == map[]
    requires n == ChargedRuns(end, key) >= 2 && !Settled(s, end, key, n)
    ensures key in end.last && (end.last[key] == n <==> !Overtakes(s, run, end, key, n))
    decreases |run|
  {
    if run == [] {
      assert Settled(s, end, key, n);
    } else {
      var s', rest := Next(s, run[0]), run[1..];
      StepKeepsInv(s, run[0]);
      StepKeepsOwedOnce(s, run[0]);
      if Settled(s', end, key, n) {
        SettledByApplying(s, run, end, key, n);
        LastAfterSettled(s', rest, end, key, n);
        NoneOvertakesSettled(s', rest, end, key, n);
      } else {
        NotYetApplied(s, run, end, key, n);
        LastUnlessOvertaking(s', rest, end, key, n);
      }
    }
  }

  /** The step that settles the last run of a key is the one that applies it. */
  lemma SettledByApplying(s: State, run: seq<Step>, end: State, key: string, n: nat)
    requires Inv(s) && IsRun(s, run, end) && run != [] && n >= 2
    requires !Settled(s, end, key, n) && Settled(Next(s, run[0]), end, key, n)
    ensures Applied(s, run[0], key) == n
    ensures key in Next(s, run[0]).last && Next(s, run[0]).last[key] == n
  {
    var s' := Next(s, run[0]);
    StepRuns(s, run[0], key);
    ActorOwes(s, run[0], key, n);
    assert !Owes(s', run[0].thread, key, n);
    var t :| Owes(s, t, key, n);
    if t != run[0].thread {
      OthersOwe(s, run[0], t, key, n);
    }
    AppliedIsLast(s, run[0], key);
  }

  lemma NotYetApplied(s: State, run: seq<Step>, end: State, key: string, n: nat)
    requires Inv(s) && OwedOnce(s) && IsRun(s, run, end) && run != [] && n == ChargedRuns(end, key) >= 2
    requires !Settled(Next(s, run[0]), end, key, n)
    ensures Applied(s, run[0], key) != n
  {
    var s', actor := Next(s, run[0]), run[0].thread;
    if Applied(s, run[0], key) == n {
      AppliedIsOwed(s, run[0], key);
      OwedBounded(s, actor, key, n);
      StepKeepsInv(s, run[0]);
      StepRuns(s, run[0], key);
      RunsGrow(s', run[1..], end, key);
      forall t | t != actor
        ensures !Owes(s, t, key, n)
      {
      }
      NobodyStartsToOwe(s, run[0], key, n);
      assert Settled(s', end, key, n);
    }
  }

  lemma {:induction false} NoneOvertakesSettled(s: State, run: seq<Step>, end: State, key: string, n: nat)
    requires Inv(s) && IsRun(s, run, end) && Settled(s, end, key, n) && n >= 2
    ensures !Overtakes(s, run, end, key, n)
    decreases |run|
  {
    if run != [] {
      StepKeepsInv(s, run[0]);
      StaysSettled(s, run, end, key, n);
      NoneOvertakesSettled(Next(s, run[0]), run[1..], end, key, n);
    }
  }

  lemma EntryOfKey(s: State, i: nat, key: string)
    requires Inv(s) && s.pending == map[] && OneToOne(s.counts) && i < |s.economics.duplicateCommands|
    requires key in s.counts && s.counts[key].dedupeKey == s.economics.duplicateCommands[i].dedupeKey
    ensures key in s.last && s.economics.duplicateCommands[i].executions == s.last[key]
    ensures ChargedRuns(s, key) >= 2
  {
    assert s.entered[i] == key;
  }

  /** With one dedupe key per cache key: after every interleaving, a duplicate records exactly the executions
      of its key if and only if the last run of the key did not overtake another from the second on. */
  lemma ExactUnlessOvertaking(run: seq<Step>, s: State, i: nat, key: string)
    requires IsRun(START, run, s) && s.pending == map[] && OneToOne(s.counts)
    requires i < |s.economics.duplicateCommands|
    requires key in s.counts && s.counts[key].dedupeKey == s.economics.duplicateCommands[i].dedupeKey
    ensures var times := Times(s.economics.commandExecutions, key);
            s.economics.duplicateCommands[i].executions == times <==> !Overtakes(START, run, s, key, times)
  {
    RunKeepsInv(START, run, s);
    QuiescentCounts(run, s);
    EntryOfKey(s, i, key);
    LastUnlessOvertaking(START, run, s, key, ChargedRuns(s, key));
  }

  // ---- a schedule that makes them exact

  /** A command is charged only when no pending one runs under the same cache key. */
  ghost predicate Serial(s: State, run: seq<Step>, end: State)
    requires IsRun(s, run, end)
    decreases |run|
  {
    run == [] ||
    ((run[0].ChargeStep? && Executed(run[0].command) ==> Owing(s, run[0].command.cacheKey) == {})
     && Serial(Next(s, run[0]), run[1..], end))
  }

  ghost predicate OwesAtMostOne(s: State, key: string) {
    forall t, u :: t in Owing(s, key) && u in Owing(s, key) ==> t == u
  }

  lemma SerialStep(s: State, run: seq<Step>, end: State, key: string)
    requires IsRun(s, run, end) && run != [] && Serial(s, run, end) && OwesAtMostOne(s, key)
    ensures OwesAtMostOne(Next(s, run[0]), key)
  {
    var s' := Next(s, run[0]);
    forall t | t in Owing(s', key) && t != run[0].thread
      ensures t in Owing(s, key)
    {
    }
  }

  lemma OwingStep(s: State, step: Step, key: string)
    requires Enabled(s, step)
    ensures Owing(Next(s, step), key) - {step.thread} == Owing(s, key) - {step.thread}
    ensures step.ApplyStep? ==> step.thread !in Owing(Next(s, step), key)
    ensures Applied(s, step, key) > 0 && Inv(s) ==> step.thread in Owing(s, key)
  {
  }

  /** With nobody owing a run of the key and none to come, no charge of it is applied any more. */
  lemma {:induction false} NothingLater(s: State, run: seq<Step>, end: State, key: string)
    requires Inv(s) && IsRun(s, run, end) && Owing(s, key) == {} && ChargedRuns(s, key) == ChargedRuns(end, key)
    ensures !AppliesLater(s, run, end, key)
    decreases |run|
  {
    if run != [] {
      var s' := Next(s, run[0]);
      StepKeepsInv(s, run[0]);
      StepRuns(s, run[0], key);
      RunsGrow(s', run[1..], end, key);
      OwingStep(s, run[0], key);
      assert Owing(s', key) <= Owing(s', key) - {run[0].thread} + {run[0].thread};
      NothingLater(s', run[1..], end, key);
    }
  }

  lemma {:induction false} SerialNeverOvertakes(s: State, run: seq<Step>, end: State, key: string, n: nat)
    requires Inv(s) && IsRun(s, run, end) && Serial(s, run, end) && OwesAtMostOne(s, key) && n == ChargedRuns(end, key) >= 2
    ensures !Overtakes(s, run, end, key, n)
    decreases |run|
  {
    if run != [] {
      var s', t := Next(s, run[0]), run[0].thread;
      StepKeepsInv(s, run[0]);
      SerialStep(s, run, end, key);
      if Applied(s, run[0], key) == n {
        OwingStep(s, run[0], key);
        assert Owing(s', key) == {} by {
          forall u ensures u !in Owing(s', key) {
            assert u in Owing(s', key) - {t} ==> u in Owing(s, key) - {t};
          }
        }
        OwedBounded(s, t, key, n);
        RunsGrow(s', run[1..], end, key);
        NothingLater(s', run[1..], end, key);
      }
      SerialNeverOvertakes(s', run[1..], end, key, n);
    }
  }

  /** So, with one dedupe key per cache key, if commands under one cache key are recorded one after the other,
      whatever else is interleaved, every duplicate records exactly the executions of its key. */
  lemma SerialIsExact(run: seq<Step>, s: State, i: nat, key: string)
    requires IsRun(START, run, s) && s.pending == map[] && OneToOne(s.counts) && Serial(START, run, s)
    requires i < |s.economics.duplicateCommands|
    requires key in s.counts && s.counts[key].dedupeKey == s.economics.duplicateCommands[i].dedupeKey
    ensures s.economics.duplicateCommands[i].executions == Times(s.economics.commandExecutions, key)
  {
    RunKeepsInv(START, run, s);
    QuiescentCounts(run, s);
    EntryOfKey(s, i, key);
    ExactUnlessOvertaking(run, s, i, key);
    SerialNeverOvertakes(START, run, s, key, ChargedRuns(s, key));
  }

  // ---- what is recorded when cache keys share a dedupe key

  /** The executions that a step writes into the first entry of a dedupe key, or opens it with; 0 if it does neither. */
  function Writes(s: State, step: Step, dedupeKey: string): nat
    requires Enabled(s, step)
  {
    if step.ChargeStep? || s.pending[step.thread].charge.None? then 0
    else
      var k := s.pending[step.thread].charge.value;
      var duplicates := s.economics.duplicateCommands;
      var found := FindDuplicate(duplicates, dedupeKey) < |duplicates|;
      if k.dedupeKey == dedupeKey && ((k.executions == 2 && !found) || (k.executions > 2 && found)) then k.executions else 0
  }

  /** The last executions written for a dedupe key in a run, or those from before it. */
  ghost function LastWritten(s: State, run: seq<Step>, end: State, dedupeKey: string, before: nat): nat
    requires IsRun(s, run, end)
    decreases |run|
  {
    if run == [] then before
    else
      var written := Writes(s, run[0], dedupeKey);
      LastWritten(Next(s, run[0]), run[1..], end, dedupeKey, if written > 0 then written else before)
  }

  function FirstRecords(duplicates: seq<Duplicate>, dedupeKey: string): nat {
    var at := FindDuplicate(duplicates, dedupeKey);
    if at < |duplicates| then duplicates[at].executions else 0
  }

  ghost predicate FollowersRecordTwo(duplicates: seq<Duplicate>) {
    forall i :: 0 <= i < |duplicates| && FindDuplicate(duplicates, duplicates[i].dedupeKey) < i ==> duplicates[i].executions == 2
  }

  lemma FindAppended(duplicates: seq<Duplicate>, d: Duplicate, dedupeKey: string)
    ensures FindDuplicate(duplicates + [d], dedupeKey) ==
            if FindDuplicate(duplicates, dedupeKey) < |duplicates| then FindDuplicate(duplicates, dedupeKey)
            else if d.dedupeKey == dedupeKey then |duplicates| else |duplicates| + 1
  {
    var all, at := duplicates + [d], FindDuplicate(duplicates, dedupeKey);
    assert all[|duplicates|] == d;
    assert at < |duplicates| ==> all[at] == duplicates[at];
  }

  lemma FindUpdated(duplicates: seq<Duplicate>, at: nat, executions: nat, dedupeKey: string)
    requires at < |duplicates|
    ensures FindDuplicate(duplicates[at := duplicates[at].(executions := executions)], dedupeKey) == FindDuplicate(duplicates, dedupeKey)
  {
    var all, i := duplicates[at := duplicates[at].(executions := executions)], FindDuplicate(duplicates, dedupeKey);
    assert forall j :: 0 <= j < |all| ==> all[j].dedupeKey == duplicates[j].dedupeKey;
    assert i < |all| ==> all[i].dedupeKey == dedupeKey;
  }

  /** The duplicates after a charge is applied. */
  function Entered(duplicates: seq<Duplicate>, k: KeyCount): seq<Duplicate> {
    var at := FindDuplicate(duplicates, k.dedupeKey);
    if k.executions == 2 then duplicates + [Duplicate(k.dedupeKey, k.command, 2)]
    else if k.executions > 2 && at < |duplicates| then duplicates[at := duplicates[at].(executions := k.executions)]
    else duplicates
  }

  lemma NextDuplicates(s: State, step: Step)
    requires Enabled(s, step)
    ensures Next(s, step).economics.duplicateCommands ==
            if step.ChargeStep? || s.pending[step.thread].charge.None? then s.economics.duplicateCommands
            else Entered(s.economics.duplicateCommands, s.pending[step.thread].charge.value)
  {
  }

  lemma EnteredWrites(duplicates: seq<Duplicate>, k: KeyCount, dedupeKey: string)
    ensures var found := FindDuplicate(duplicates, dedupeKey) < |duplicates|;
            FirstRecords(Entered(duplicates, k), dedupeKey) ==
            if k.dedupeKey == dedupeKey && ((k.executions == 2 && !found) || (k.executions > 2 && found)) then k.executions
            else FirstRecords(duplicates, dedupeKey)
  {
    var at := FindDuplicate(duplicates, k.dedupeKey);
    if k.executions == 2 {
      FindAppended(duplicates, Duplicate(k.dedupeKey, k.command, 2), dedupeKey);
    } else if k.executions > 2 && at < |duplicates| {
      FindUpdated(duplicates, at, k.executions, dedupeKey);
    }
  }

  lemma EnteredKeepsFollowers(duplicates: seq<Duplicate>, k: KeyCount)
    requires FollowersRecordTwo(duplicates)
    ensures FollowersRecordTwo(Entered(duplicates, k))
  {
    var after, at := Entered(duplicates, k), FindDuplicate(duplicates, k.dedupeKey);
    forall i | 0 <= i < |after| && FindDuplicate(after, after[i].dedupeKey) < i
      ensures after[i].executions == 2
    {
      if k.executions == 2 {
        FindAppended(duplicates, Duplicate(k.dedupeKey, k.command, 2), after[i].dedupeKey);
      } else if k.executions > 2 && at < |duplicates| {
        FindUpdated(duplicates, at, k.executions, after[i].dedupeKey);
      }
    }
  }

  lemma StepWrites(s: State, step: Step, dedupeKey: string)
    requires Enabled(s, step)
    ensures var before, after := s.economics.duplicateCommands, Next(s, step).economics.duplicateCommands;
            FirstRecords(after, dedupeKey) ==
            if Writes(s, step, dedupeKey) > 0 then Writes(s, step, dedupeKey) else FirstRecords(before, dedupeKey)
  {
    NextDuplicates(s, step);
    if step.ApplyStep? && s.pending[step.thread].charge.Some? {
      EnteredWrites(s.economics.duplicateCommands, s.pending[step.thread].charge.value, dedupeKey);
    }
  }

  lemma StepKeepsFollowers(s: State, step: Step)
    requires Enabled(s, step) && FollowersRecordTwo(s.economics.duplicateCommands)
    ensures FollowersRecordTwo(Next(s, step).economics.duplicateCommands)
  {
    NextDuplicates(s, step);
    if step.ApplyStep? && s.pending[step.thread].charge.Some? {
      EnteredKeepsFollowers(s.economics.duplicateCommands, s.pending[step.thread].charge.value);
    }
  }

  lemma {:induction false} RunWrites(s: State, run: seq<Step>, end: State, dedupeKey: string)
    requires IsRun(s, run, end) && FollowersRecordTwo(s.economics.duplicateCommands)
    ensures FollowersRecordTwo(end.economics.duplicateCommands)
    ensures FirstRecords(end.economics.duplicateCommands, dedupeKey)
         == LastWritten(s, run, end, dedupeKey, FirstRecords(s.economics.duplicateCommands, dedupeKey))
    decreases |run|
  {
    if run != [] {
      StepWrites(s, run[0], dedupeKey);
      StepKeepsFollowers(s, run[0]);
      RunWrites(Next(s, run[0]), run[1..], end, dedupeKey);
    }
  }

  /** At any time of any interleaving, the first entry of a dedupe key records the executions written last, under
      whichever cache key, and every other entry of it records two. */
  lemma EntriesRecordLastWritten(run: seq<Step>, s: State, i: nat)
    requires IsRun(START, run, s) && i < |s.economics.duplicateCommands|
    ensures var duplicates := s.economics.duplicateCommands;
            var dedupeKey := duplicates[i].dedupeKey;
            duplicates[i].executions ==
            if FindDuplicate(duplicates, dedupeKey) == i then LastWritten(START, run, s, dedupeKey, 0) else 2
  {
    RunWrites(START, run, s, s.economics.duplicateCommands[i].dedupeKey);
  }

  /** So, after every interleaving and whatever keys share a dedupe key: an entry records exactly the executions
      of its own key if and only if, for the first entry of a dedupe key, the executions written last under that
      are as many, and, for any other entry, its key ran just twice. */
  lemma EntryIsExact(run: seq<Step>, s: State, i: nat)
    requires IsRun(START, run, s) && s.pending == map[] && i < |s.economics.duplicateCommands|
    ensures |s.entered| == |s.economics.duplicateCommands|
    ensures var (duplicates, key) := (s.economics.duplicateCommands, s.entered[i]);
            var (dedupeKey, times) := (duplicates[i].dedupeKey, Times(s.economics.commandExecutions, key));
            && key in s.counts && s.counts[key].dedupeKey == dedupeKey && times >= 2
            && (duplicates[i].executions == times <==>
                  if FindDuplicate(duplicates, dedupeKey) == i then LastWritten(START, run, s, dedupeKey, 0) == times else times == 2)
  {
    RunKeepsInv(START, run, s);
    QuiescentCounts(run, s);
    EntriesRecordLastWritten(run, s, i);
    assert s.entered[i] in s.entered;
  }

  /** Three threads, one command: the third charge is applied before the second opens the entry, and is lost. */
  lemma OvertakingLosesARun(c: Command)
    requires Executed(c)
    ensures exists run, s :: IsRun(START, run, s) && s.pending == map[]
                             && Times(s.economics.commandExecutions, c.cacheKey) == 3
                             && s.economics.duplicateCommands == [Duplicate(c.dedupeKey, c.command, 2)]
  {
    var s1, s2, s3 := ThreeCharges(c);
    var applies, s6 := ApplyOutOfOrder(c, s3);
    Prepend(s2, ChargeStep(3, c), applies, s6);
    Prepend(s1, ChargeStep(2, c), [ChargeStep(3, c)] + applies, s6);
    Prepend(START, ChargeStep(1, c), [ChargeStep(2, c)] + ([ChargeStep(3, c)] + applies), s6);
  }

  ghost predicate ThreePending(c: Command, s: State) {
    s.economics == EMPTY && s.pending.Keys == {1, 2, 3} && Charges(c, s)
  }

  lemma ThreeCharges(c: Command) returns (s1: State, s2: State, s3: State)
    requires Executed(c)
    ensures s1 == Next(START, ChargeStep(1, c))
    ensures Fits(s1) && 2 !in s1.pending && s2 == Next(s1, ChargeStep(2, c))
    ensures Fits(s2) && 3 !in s2.pending && s3 == Next(s2, ChargeStep(3, c))
    ensures Fits(s3) && ThreePending(c, s3)
  {
    s1 := Next(START, ChargeStep(1, c));
    assert s1.pending.Keys == {1} && |s1.pending| == 1;
    s2 := Next(s1, ChargeStep(2, c));
    assert s2.pending.Keys == {1, 2} && |s2.pending| == 2;
    s3 := Next(s2, ChargeStep(3, c));
    assert s3.pending.Keys == {1, 2, 3} && |s3.pending| == 3;
  }

  /** The effect on the duplicates while there are none. */
  lemma ApplyFirst(e: RunEconomics, c: Command, n: nat)
    requires e.duplicateCommands == []
    ensures Apply(e, c, Some(KeyCount(c.dedupeKey, c.command, n))).duplicateCommands ==
            if n == 2 then [Duplicate(c.dedupeKey, c.command, 2)] else []
  {
  }

  /** Every pending thread has charged the same command; its charge is its own number. */
  ghost predicate Charges(c: Command, s: State) {
    forall t :: t in s.pending ==> s.pending[t] == Charged(c, Some(KeyCount(c.dedupeKey, c.command, t)))
  }

  lemma ApplyPending(c: Command, s: State, t: Thread) returns (next: State)
    requires Executed(c) && Fits(s) && Charges(c, s) && t in s.pending && s.economics.duplicateCommands == []
    ensures next == Next(s, ApplyStep(t)) && Fits(next) && Charges(c, next)
    ensures next.pending.Keys == s.pending.Keys - {t}
    ensures next.economics.commandExecutions == s.economics.commandExecutions + [c]
    ensures next.economics.duplicateCommands == if t == 2 then [Duplicate(c.dedupeKey, c.command, 2)] else []
  {
    next := Next(s, ApplyStep(t));
    ApplyFirst(s.economics, c, t);
    assert next.pending.Keys == s.pending.Keys - {t} && |next.pending.Keys| == |s.pending.Keys| - 1;
  }

  lemma ApplyOutOfOrder(c: Command, s3: State) returns (run: seq<Step>, s6: State)
    requires Executed(c) && Fits(s3) && ThreePending(c, s3)
    ensures IsRun(s3, run, s6) && s6.pending == map[]
    ensures Times(s6.economics.commandExecutions, c.cacheKey) == 3
    ensures s6.economics.duplicateCommands == [Duplicate(c.dedupeKey, c.command, 2)]
  {
    var s4 := ApplyPending(c, s3, 1);
    var s5 := ApplyPending(c, s4, 3);
    s6 := ApplyPending(c, s5, 2);
    assert s6.pending.Keys == {};
    ThreeTimes(c);
    run := [];
    Prepend(s5, ApplyStep(2), run, s6);
    run := [ApplyStep(2)] + run;
    Prepend(s4, ApplyStep(3), run, s6);
    run := [ApplyStep(3)] + run;
    Prepend(s3, ApplyStep(1), run, s6);
    run := [ApplyStep(1)] + run;
  }

  lemma ThreeTimes(c: Command)
    requires Executed(c)
    ensures Times([] + [c] + [c] + [c], c.cacheKey) == 3
  {
    AppendCounts([], c, c.cacheKey);
    AppendCounts([] + [c], c, c.cacheKey);
    AppendCounts([] + [c] + [c], c, c.cacheKey);
  }

  lemma Prepend(s: State, step: Step, run: seq<Step>, end: State)
    requires Fits(s) && Enabled(s, step) && IsRun(Next(s, step), run, end)
    ensures IsRun(s, [step] + run, end)
  {
    assert ([step] + run)[1..] == run;
  }
}
