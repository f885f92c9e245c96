/** The recorder object, used by one thread: every recording updates the economics, marks them dirty
    and may write a checkpoint. */
module Recorder {
  import opened Outcomes
  import opened CommandLog
  import opened Economics
  import Collections

  /** The time since an earlier instant, as a monotonic clock measures it. */
  function Elapsed(now: nat, earlier: nat): nat {
    if now < earlier then 0 else now - earlier
  }

  class RunEconomicsRecorder {
    var inner: RunEconomics
    var commandCounts: CommandCounts
    var snapshotPath: Option<string>
    var minimumInterval: nat
    var lastWrite: Option<nat>
    var persistedRevision: Option<nat>
    var revision: nat
    /** The contents of the snapshot file. */
    var file: Option<RunEconomics>

    ghost predicate Valid()
      reads this
    {
      && Refines(inner.commandExecutions, commandCounts, inner)
      && (persistedRevision.Some? ==> persistedRevision.value <= revision)
      && (persistedRevision == Some(revision) ==> file == Some(inner))
    }

    /** The last checkpoint is too recent for another one that is not forced. */
    predicate Throttled(now: nat)
      reads this
    {
      lastWrite.Some? && minimumInterval > 0 && now < lastWrite.value + minimumInterval
    }

    /** A checkpoint is written: there is a file for it, something new to write, and no throttle in the way. */
    predicate Due(force: bool, now: nat)
      reads this
    {
      snapshotPath.Some? && persistedRevision != Some(revision) && (force || !Throttled(now))
    }

    /** What a recording leaves on disk: unless throttled, everything recorded so far. */
    twostate predicate Checkpointed(now: nat, outcome: WriteOutcome)
      reads this
    {
      && snapshotPath == old(snapshotPath) && minimumInterval == old(minimumInterval)
      && (if snapshotPath.None? || old(Throttled(now)) then
            file == old(file) && lastWrite == old(lastWrite) && inner.checkpointCount == old(inner.checkpointCount)
          else if outcome == Installed then
            file == Some(inner) && lastWrite == Some(now) && inner.checkpointCount == SaturatingAdd(old(inner.checkpointCount), 1)
          else
            && lastWrite == old(lastWrite) && inner.checkpointCount == SaturatingSub(SaturatingAdd(old(inner.checkpointCount), 1), 1)
            && file == if outcome == NotInstalled then old(file)
                       else Some(inner.(checkpointCount := SaturatingAdd(old(inner.checkpointCount), 1))))
    }

    constructor ()
      ensures Valid() && inner == EMPTY && snapshotPath == None && file == None && revision == 0
    {
      EmptyRefines();
      inner, commandCounts := EMPTY, map[];
      snapshotPath, minimumInterval, lastWrite, persistedRevision := None, 0, None, None;
      revision, file := 0, None;
    }

    method WithSnapshotPathAndInterval(path: string, interval: nat, now: nat, outcome: WriteOutcome)
      requires Valid()
      modifies this
      ensures Valid() && snapshotPath == Some(path) && minimumInterval == interval
      ensures outcome == Installed ==> file == Some(inner)
      ensures inner == old(inner).(checkpointCount := inner.checkpointCount)
    {
      snapshotPath := Some(path);
      minimumInterval := interval;
      PersistSnapshotInner(true, now, outcome);
    }

    /** Enters the command in the log. Valid() then says again that counters and duplicates are what the
        whole log gives. */
    method RecordCommand(command: Command, now: nat, outcome: WriteOutcome)
      requires Valid() && |inner.commandExecutions| < USIZE_MAX
      modifies this
      ensures Valid()
      ensures inner.commandExecutions == old(inner.commandExecutions) + [command]
      ensures inner == Apply(old(inner), command, Charge(old(commandCounts), command).1).(checkpointCount := inner.checkpointCount)
      ensures revision == old(revision) + 1
      ensures Checkpointed(now, outcome)
      ensures snapshotPath.Some? && minimumInterval == 0 && outcome == Installed ==> file == Some(inner)
    {
      ChargeAndEnter(command);
      MarkDirtyAndPersist(now, outcome);
    }

    /** Charges the command, and enters it under the charged count. */
    method ChargeAndEnter(command: Command)
      requires Valid() && |inner.commandExecutions| < USIZE_MAX
      modifies `inner, `commandCounts
      ensures Refines(inner.commandExecutions, commandCounts, inner)
      ensures inner.commandExecutions == old(inner.commandExecutions) + [command]
      ensures inner == Apply(old(inner), command, Charge(old(commandCounts), command).1)
      ensures inner.checkpointCount == old(inner.checkpointCount)
    {
      RecordingRefines(inner.commandExecutions, commandCounts, inner, command);
      var executionCount;
      commandCounts, executionCount := ChargeKey(commandCounts, command);
      inner := EnterCommand(inner, command, executionCount);
    }

    method FinishPhase(phase: string, duration: nat, now: nat, outcome: WriteOutcome)
      requires Valid()
      modifies this
      ensures Valid() && revision == old(revision) + 1
      ensures inner == old(inner).(phaseDurations := old(inner).phaseDurations[phase := duration], checkpointCount := inner.checkpointCount)
      ensures Checkpointed(now, outcome)
      ensures snapshotPath.Some? && minimumInterval == 0 && outcome == Installed ==> file == Some(inner)
    {
      inner := inner.(phaseDurations := inner.phaseDurations[phase := duration]);
      MarkDirtyAndPersist(now, outcome);
    }

    method RecordAgentCall(call: string, now: nat, outcome: WriteOutcome)
      requires Valid()
      modifies this
      ensures Valid() && revision == old(revision) + 1
      ensures inner == old(inner).(agentCalls := old(inner).agentCalls + [call], agentCallCount := |old(inner).agentCalls| + 1,
                                   checkpointCount := inner.checkpointCount)
      ensures Checkpointed(now, outcome)
      ensures snapshotPath.Some? && minimumInterval == 0 && outcome == Installed ==> file == Some(inner)
    {
      inner := inner.(agentCalls := inner.agentCalls + [call]);
      inner := inner.(agentCallCount := |inner.agentCalls|);
      MarkDirtyAndPersist(now, outcome);
    }

    method RecordRuntimeObservation(events: nat, bytes: nat, writes: nat, polls: nat, now: nat, outcome: WriteOutcome)
      requires Valid()
      modifies this
      ensures Valid() && revision == old(revision) + 1
      ensures inner == Observe(old(inner), Observation(events, bytes, writes, polls)).(checkpointCount := inner.checkpointCount)
      ensures Checkpointed(now, outcome)
      ensures snapshotPath.Some? && minimumInterval == 0 && outcome == Installed ==> file == Some(inner)
    {
      inner := inner.(eventCount := SaturatingAdd(inner.eventCount, events));
      inner := inner.(eventBytes := SaturatingAdd(inner.eventBytes, bytes));
      inner := inner.(stateWrites := SaturatingAdd(inner.stateWrites, writes));
      inner := inner.(polls := SaturatingAdd(inner.polls, polls));
      MarkDirtyAndPersist(now, outcome);
    }

    method MarkDirtyAndPersist(now: nat, outcome: WriteOutcome)
      requires Refines(inner.commandExecutions, commandCounts, inner)
      requires persistedRevision.Some? ==> persistedRevision.value <= revision
      modifies this
      ensures Valid() && revision == old(revision) + 1
      ensures inner == old(inner).(checkpointCount := inner.checkpointCount)
      ensures Checkpointed(now, outcome)
      ensures snapshotPath.Some? && minimumInterval == 0 && outcome == Installed ==> file == Some(inner)
    {
      revision := revision + 1;
      PersistSnapshotInner(false, now, outcome);
    }

    /** Writes a complete snapshot when one is due, and nothing else: it is then what the file holds unless the
        write fails, and a write that is not reported as successful will be tried again. */
    method PersistSnapshotInner(force: bool, now: nat, outcome: WriteOutcome)
      requires Valid()
      modifies this
      ensures Valid()
      ensures revision == old(revision) && snapshotPath == old(snapshotPath) && minimumInterval == old(minimumInterval)
      ensures inner == old(inner).(checkpointCount := inner.checkpointCount)
      ensures !old(Due(force, now)) ==>
                inner == old(inner) && file == old(file) && persistedRevision == old(persistedRevision) && lastWrite == old(lastWrite)
      ensures old(Due(force, now)) && outcome == Installed ==>
                && inner.checkpointCount == SaturatingAdd(old(inner.checkpointCount), 1)
                && file == Some(inner) && persistedRevision == Some(revision) && lastWrite == Some(now)
      ensures old(Due(force, now)) && outcome != Installed ==>
                && inner.checkpointCount == SaturatingSub(SaturatingAdd(old(inner.checkpointCount), 1), 1)
                && persistedRevision == old(persistedRevision) && lastWrite == old(lastWrite)
                && file == if outcome == NotInstalled then old(file)
                           else Some(inner.(checkpointCount := SaturatingAdd(old(inner.checkpointCount), 1)))
      ensures snapshotPath.Some? && force && outcome == Installed ==> file == Some(inner) && persistedRevision == Some(revision)
    {
      if snapshotPath.None? {
        return;
      }
      if persistedRevision == Some(revision)
         || (!force && lastWrite.Some? && Elapsed(now, lastWrite.value) < minimumInterval) {
        return;
      }
      inner := inner.(checkpointCount := SaturatingAdd(inner.checkpointCount, 1));
      var snapshot := inner;
      if outcome != NotInstalled {
        file := Some(snapshot);
      }
      if outcome == Installed {
        lastWrite := Some(now);
        persistedRevision := Some(revision);
      } else {
        inner := inner.(checkpointCount := SaturatingSub(inner.checkpointCount, 1));
      }
    }

    /** The final economics; what they say is also on disk unless the write failed. */
    method Snapshot(now: nat, outcome: WriteOutcome) returns (economics: RunEconomics)
      requires Valid()
      modifies this
      ensures Valid() && economics == inner
      ensures snapshotPath.Some? && outcome == Installed ==> file == Some(economics)
      ensures economics == old(inner).(checkpointCount := economics.checkpointCount)
    {
      PersistSnapshotInner(true, now, outcome);
      economics := inner;
    }
  }

  /** Charges the command to its cache key, if it ran. */
  method ChargeKey(counts: CommandCounts, command: Command) returns (counts': CommandCounts, charge: Option<KeyCount>)
    ensures (counts', charge) == Charge(counts, command)
    ensures if Executed(command) then charge.Some? && counts' == counts[command.cacheKey := charge.value] else charge.None? && counts' == counts
    ensures Executed(command) && command.cacheKey !in counts ==> charge.value == KeyCount(command.dedupeKey, command.command, 1)
    ensures Executed(command) && command.cacheKey in counts ==>
      var before := counts[command.cacheKey];
      charge.value == before.(executions := SaturatingAdd(before.executions, 1))
  {
    counts', charge := counts, None;
    if !command.cacheHit && command.status != "skipped" {
      var entry := KeyCount(command.dedupeKey, command.command, 0);
      if command.cacheKey in counts {
        entry := counts[command.cacheKey];
      }
      entry := entry.(executions := SaturatingAdd(entry.executions, 1));
      counts' := counts[command.cacheKey := entry];
      charge := Some(entry);
    }
  }

  /** Counts the hit or miss, applies the charge and enters the command in the log. */
  method EnterCommand(before: RunEconomics, command: Command, charge: Option<KeyCount>) returns (economics: RunEconomics)
    ensures economics == Apply(before, command, charge)
  {
    economics := before;
    if command.status != "skipped" {
      if command.cacheHit {
        economics := economics.(cacheHits := economics.cacheHits + 1);
      } else {
        economics := economics.(cacheMisses := economics.cacheMisses + 1);
      }
    }
    assert economics == Looked(before, command);
    if charge.Some? {
      economics := ApplyCount(economics, charge.value);
    }
    economics := economics.(commandExecutions := economics.commandExecutions + [command]);
  }

  /** Enters the new count of a key that ran: a second run opens a duplicate entry, later ones update
      the first entry with the key's dedupe key. */
  method ApplyCount(before: RunEconomics, k: KeyCount) returns (economics: RunEconomics)
    ensures economics == Counted(before, k)
  {
    economics := before.(commandExecutionCount := SaturatingAdd(before.commandExecutionCount, 1));
    if k.executions == 2 {
      economics := economics.(duplicateCommands := economics.duplicateCommands + [Duplicate(k.dedupeKey, k.command, k.executions)]);
      economics := economics.(duplicateCommandCount := |economics.duplicateCommands|);
      economics := economics.(slaViolations := economics.slaViolations + [DUPLICATES_DETECTED]);
    } else if k.executions > 2 {
      for i := 0 to |economics.duplicateCommands|
        invariant i <= FindDuplicate(economics.duplicateCommands, k.dedupeKey)
      {
        if economics.duplicateCommands[i].dedupeKey == k.dedupeKey {
          var updated := economics.duplicateCommands[i].(executions := k.executions);
          economics := economics.(duplicateCommands := economics.duplicateCommands[i := updated]);
          return;
        }
      }
    }
  }

  // ---- runtime observations

  datatype Observation = Observation(events: nat, bytes: nat, writes: nat, polls: nat)

  function Observe(e: RunEconomics, o: Observation): RunEconomics {
    e.(eventCount := SaturatingAdd(e.eventCount, o.events), eventBytes := SaturatingAdd(e.eventBytes, o.bytes),
       stateWrites := SaturatingAdd(e.stateWrites, o.writes), polls := SaturatingAdd(e.polls, o.polls))
  }

  function ObserveAll(e: RunEconomics, os: seq<Observation>): RunEconomics {
    if os == [] then e else Observe(ObserveAll(e, os[..|os| - 1]), os[|os| - 1])
  }

  /** The sums of what was observed, counter by counter. */
  ghost function Sums(os: seq<Observation>): Observation {
    if os == [] then Observation(0, 0, 0, 0)
    else
      var (before, last) := (Sums(os[..|os| - 1]), os[|os| - 1]);
      Observation(before.events + last.events, before.bytes + last.bytes, before.writes + last.writes, before.polls + last.polls)
  }

  function AtMost(limit: nat, n: nat): nat {
    if n > limit then limit else n
  }

  /** Saturating additions lose nothing but what exceeds the word: the order and grouping do not matter, and
      nothing but the four counters changes. */
  lemma {:induction false} ObservationsSaturate(e: RunEconomics, os: seq<Observation>)
    requires e.eventCount <= USIZE_MAX && e.eventBytes <= USIZE_MAX && e.stateWrites <= USIZE_MAX && e.polls <= USIZE_MAX
    ensures ObserveAll(e, os) == e.(eventCount := AtMost(USIZE_MAX, e.eventCount + Sums(os).events),
                                    eventBytes := AtMost(USIZE_MAX, e.eventBytes + Sums(os).bytes),
                                    stateWrites := AtMost(USIZE_MAX, e.stateWrites + Sums(os).writes),
                                    polls := AtMost(USIZE_MAX, e.polls + Sums(os).polls))
  {
    if os != [] {
      ObservationsSaturate(e, os[..|os| - 1]);
    }
  }

  // ---- what a valid recorder reports

  /** The reported counters against the log: executions, misses and per-key counts agree, no entry is
      uncounted, and the duplicates are one entry for each key that ran at least twice. */
  lemma ReportMatchesLog(counts: CommandCounts, e: RunEconomics)
    requires Refines(e.commandExecutions, counts, e)
    ensures e.commandExecutionCount == e.cacheMisses == Total(map key | key in counts :: counts[key].executions)
    ensures e.cacheHits + e.cacheMisses + Skips(e.commandExecutions) == |e.commandExecutions|
    ensures e.duplicateCommandCount == |e.slaViolations| == |set key | key in counts && counts[key].executions >= 2|
  {
    var log := e.commandExecutions;
    EntriesAddUp(log);
    var plain := map key | key in counts :: counts[key].executions;
    KeyCountsAddUp(log, plain);
    var keys := DuplicateKeys(log);
    var twice := set key | key in counts && counts[key].executions >= 2;
    forall key
      ensures key in twice <==> key in keys
    {
      DuplicateKeysAre(log, key);
    }
    if keys != [] {
      DuplicateKeysAre(log, keys[0]);
    }
    Collections.DistinctCount(keys, twice);
  }
}
