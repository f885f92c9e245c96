/** The run economics: what one recorded command does to them, and what they say about the log. */
module Economics {
  import opened Outcomes
  import opened CommandLog

  /** Counters are machine words that stop at their maximum. */
  const USIZE_MAX: nat := 0xFFFF_FFFF_FFFF_FFFF

  function SaturatingAdd(a: nat, b: nat): nat {
    if a + b > USIZE_MAX then USIZE_MAX else a + b
  }

  function SaturatingSub(a: nat, b: nat): nat {
    if a < b then 0 else a - b
  }

  datatype Duplicate = Duplicate(dedupeKey: string, command: string, executions: nat)

  datatype RunEconomics = RunEconomics(
    repairAttempts: nat, agentCalls: seq<string>, agentCallCount: nat, phaseDurations: map<string, nat>,
    commandExecutionCount: nat, duplicateCommandCount: nat, cacheHits: nat, cacheMisses: nat,
    eventCount: nat, eventBytes: nat, stateWrites: nat, polls: nat, checkpointCount: nat,
    commandExecutions: seq<Command>, duplicateCommands: seq<Duplicate>, slaViolations: seq<string>)

  const EMPTY := RunEconomics(0, [], 0, map[], 0, 0, 0, 0, 0, 0, 0, 0, 0, [], [], [])

  const DUPLICATES_DETECTED := "duplicate daemon command executions detected"

  /** Per cache key: the dedupe key and the text of its first run, and its runs so far. */
  datatype KeyCount = KeyCount(dedupeKey: string, command: string, executions: nat)

  type CommandCounts = map<string, KeyCount>

  /** First half of recording a command: the count it is charged to, if it ran. */
  function Charge(counts: CommandCounts, c: Command): (CommandCounts, Option<KeyCount>) {
    if Executed(c) then
      var entry := if c.cacheKey in counts then counts[c.cacheKey] else KeyCount(c.dedupeKey, c.command, 0);
      var charged := entry.(executions := SaturatingAdd(entry.executions, 1));
      (counts[c.cacheKey := charged], Some(charged))
    else
      (counts, None)
  }

  /** The first duplicate with this dedupe key, or the length of the list. */
  function FindDuplicate(duplicates: seq<Duplicate>, dedupeKey: string): (i: nat)
    ensures i <= |duplicates|
    ensures i < |duplicates| ==> duplicates[i].dedupeKey == dedupeKey
    ensures forall j :: 0 <= j < i ==> duplicates[j].dedupeKey != dedupeKey
  {
    if duplicates == [] then 0
    else if duplicates[0].dedupeKey == dedupeKey then 0
    else 1 + FindDuplicate(duplicates[1..], dedupeKey)
  }

  function Looked(e: RunEconomics, c: Command): RunEconomics {
    if Skipped(c) then e
    else if c.cacheHit then e.(cacheHits := e.cacheHits + 1)
    else e.(cacheMisses := e.cacheMisses + 1)
  }

  function Counted(e: RunEconomics, k: KeyCount): RunEconomics {
    var ran := e.(commandExecutionCount := SaturatingAdd(e.commandExecutionCount, 1));
    var at := FindDuplicate(ran.duplicateCommands, k.dedupeKey);
    if k.executions == 2 then
      ran.(duplicateCommands := ran.duplicateCommands + [Duplicate(k.dedupeKey, k.command, 2)],
           duplicateCommandCount := |ran.duplicateCommands| + 1,
           slaViolations := ran.slaViolations + [DUPLICATES_DETECTED])
    else if k.executions > 2 && at < |ran.duplicateCommands| then
      ran.(duplicateCommands := ran.duplicateCommands[at := ran.duplicateCommands[at].(executions := k.executions)])
    else ran
  }

  /** Second half: the economics with the command entered in the log and the charged count applied. */
  function Apply(e: RunEconomics, c: Command, charge: Option<KeyCount>): RunEconomics {
    var looked := Looked(e, c);
    var counted := if charge.Some? then Counted(looked, charge.value) else looked;
    counted.(commandExecutions := counted.commandExecutions + [c])
  }

  // ---- what the incremental values say about the log

  ghost function DedupeOf(log: seq<Command>, i: nat): string
    requires i < |DuplicateKeys(log)|
  {
    DuplicateKeysAre(log, DuplicateKeys(log)[i]);
    First(log, DuplicateKeys(log)[i]).dedupeKey
  }

  ghost function CommandOf(log: seq<Command>, i: nat): string
    requires i < |DuplicateKeys(log)|
  {
    DuplicateKeysAre(log, DuplicateKeys(log)[i]);
    First(log, DuplicateKeys(log)[i]).command
  }

  /** Entry i has no earlier entry with its dedupe key. */
  ghost predicate Leads(log: seq<Command>, i: nat)
    requires i < |DuplicateKeys(log)|
  {
    forall j :: 0 <= j < i ==> DedupeOf(log, j) != DedupeOf(log, i)
  }

  /** Entry j would be found under an earlier entry and ran more than twice. */
  ghost predicate Stolen(log: seq<Command>, j: nat)
    requires j < |DuplicateKeys(log)|
  {
    !Leads(log, j) && Times(log, DuplicateKeys(log)[j]) > 2
  }

  /** The cache key that was last to run a third or later time, of those whose first run had this dedupe key. */
  ghost function LastRepeat(log: seq<Command>, dedupeKey: string): Option<string> {
    if log == [] then None
    else
      var front, c := log[..|log| - 1], log[|log| - 1];
      if Executed(c) && Times(front, c.cacheKey) >= 2 && First(front, c.cacheKey).dedupeKey == dedupeKey then Some(c.cacheKey)
      else LastRepeat(front, dedupeKey)
  }

  /** What entry i records: 2 for a follower; for a leader, the executions of the key that was last to run a
      third or later time under its dedupe key, be it its own or a follower's, and 2 if there is none. */
  ghost function Recorded(log: seq<Command>, i: nat): nat
    requires i < |DuplicateKeys(log)|
  {
    var last := LastRepeat(log, DedupeOf(log, i));
    if Leads(log, i) && last.Some? then Times(log, last.value) else 2
  }

  ghost predicate DuplicatesRefine(log: seq<Command>, duplicates: seq<Duplicate>) {
    && |duplicates| == |DuplicateKeys(log)|
    && forall i :: 0 <= i < |duplicates| ==>
                     && duplicates[i].dedupeKey == DedupeOf(log, i) && duplicates[i].command == CommandOf(log, i)
                     && duplicates[i].executions == Recorded(log, i)
  }

  ghost predicate ChargesRefine(log: seq<Command>, counts: CommandCounts) {
    && (forall key :: key in counts <==> Times(log, key) > 0)
    && (forall key :: key in counts ==> counts[key] == KeyCount(First(log, key).dedupeKey, First(log, key).command, Times(log, key)))
  }

  ghost predicate CountersRefine(log: seq<Command>, e: RunEconomics) {
    && e.commandExecutions == log
    && e.cacheHits == Hits(log)
    && e.cacheMisses == e.commandExecutionCount == Executions(log)
    && e.duplicateCommandCount == |e.duplicateCommands|
    && |e.slaViolations| == |e.duplicateCommands|
    && forall i :: 0 <= i < |e.slaViolations| ==> e.slaViolations[i] == DUPLICATES_DETECTED
  }

  ghost predicate Refines(log: seq<Command>, counts: CommandCounts, e: RunEconomics) {
    ChargesRefine(log, counts) && CountersRefine(log, e) && DuplicatesRefine(log, e.duplicateCommands)
  }

  lemma AppendCounts(log: seq<Command>, c: Command, key: string)
    ensures Times(log + [c], key) == Times(log, key) + if Runs(c, key) then 1 else 0
    ensures Times(log, key) > 0 ==> First(log + [c], key) == First(log, key)
    ensures Times(log, key) == 0 && Runs(c, key) ==> First(log + [c], key) == c
    ensures Hits(log + [c]) == Hits(log) + if c.cacheHit && !Skipped(c) then 1 else 0
    ensures Executions(log + [c]) == Executions(log) + if Executed(c) then 1 else 0
    ensures DuplicateKeys(log + [c]) == DuplicateKeys(log)
                                        + if Executed(c) && Times(log, c.cacheKey) == 1 then [c.cacheKey] else []
  {
    Append(log, c);
  }

  lemma ChargeKeepsRefinement(log: seq<Command>, counts: CommandCounts, c: Command)
    requires ChargesRefine(log, counts) && |log| < USIZE_MAX
    ensures ChargesRefine(log + [c], Charge(counts, c).0)
    ensures Executed(c) ==> Charge(counts, c).1 == Some(Charge(counts, c).0[c.cacheKey])
  {
    var after := Charge(counts, c).0;
    TimesBounded(log, c.cacheKey);
    forall key
      ensures key in after <==> Times(log + [c], key) > 0
      ensures key in after ==> after[key] == KeyCount(First(log + [c], key).dedupeKey, First(log + [c], key).command, Times(log + [c], key))
    {
      AppendCounts(log, c, key);
    }
  }

  /** The old entries keep their keys, and only the charged key's count moves. */
  lemma AppendKeepsEntries(log: seq<Command>, c: Command, i: nat)
    requires i < |DuplicateKeys(log)|
    ensures DuplicateKeys(log) <= DuplicateKeys(log + [c])
    ensures DedupeOf(log + [c], i) == DedupeOf(log, i) && CommandOf(log + [c], i) == CommandOf(log, i)
    ensures Times(log + [c], DuplicateKeys(log)[i]) == Times(log, DuplicateKeys(log)[i]) + if Runs(c, DuplicateKeys(log)[i]) then 1 else 0
  {
    AppendCounts(log, c, DuplicateKeys(log)[i]);
    DuplicateKeysAre(log, DuplicateKeys(log)[i]);
  }

  lemma LeadsIsStable(log: seq<Command>, c: Command, i: nat)
    requires i < |DuplicateKeys(log)|
    ensures |DuplicateKeys(log)| <= |DuplicateKeys(log + [c])|
    ensures Leads(log + [c], i) <==> Leads(log, i)
  {
    AppendKeepsEntries(log, c, i);
    forall j | 0 <= j < i
      ensures DedupeOf(log + [c], j) == DedupeOf(log, j)
    {
      AppendKeepsEntries(log, c, j);
    }
  }

  /** The key did run so often, under that dedupe key; and if there is none, no such key did. */
  lemma {:induction false} LastRepeatIs(log: seq<Command>, dedupeKey: string, key: string)
    ensures LastRepeat(log, dedupeKey) == Some(key) ==> Times(log, key) > 2 && First(log, key).dedupeKey == dedupeKey
    ensures LastRepeat(log, dedupeKey) == None && Times(log, key) > 2 ==> First(log, key).dedupeKey != dedupeKey
  {
    if log != [] {
      LastRepeatIs(log[..|log| - 1], dedupeKey, key);
    }
  }

  lemma AppendLastRepeat(log: seq<Command>, c: Command, dedupeKey: string)
    ensures LastRepeat(log + [c], dedupeKey)
         == if Executed(c) && Times(log, c.cacheKey) >= 2 && First(log, c.cacheKey).dedupeKey == dedupeKey
            then Some(c.cacheKey) else LastRepeat(log, dedupeKey)
  {
    Append(log, c);
  }

  /** An entry keeps recording what it should, unless it leads the dedupe key of a key's third or later run. */
  lemma EntryKept(log: seq<Command>, c: Command, i: nat)
    requires i < |DuplicateKeys(log)|
    requires Executed(c) && Times(log, c.cacheKey) >= 2 && Leads(log, i) ==>
      First(log, c.cacheKey).dedupeKey != DedupeOf(log, i)
    ensures i < |DuplicateKeys(log + [c])| && Recorded(log + [c], i) == Recorded(log, i)
  {
    AppendKeepsEntries(log, c, i);
    LeadsIsStable(log, c, i);
    AppendLastRepeat(log, c, DedupeOf(log, i));
    var last := LastRepeat(log, DedupeOf(log, i));
    if last.Some? {
      LastRepeatIs(log, DedupeOf(log, i), last.value);
      AppendCounts(log, c, last.value);
    }
  }

  /** The second run of a key appends an entry for it. */
  lemma SecondRun(log: seq<Command>, duplicates: seq<Duplicate>, c: Command)
    requires DuplicatesRefine(log, duplicates) && Executed(c) && Times(log, c.cacheKey) == 1
    ensures DuplicatesRefine(log + [c], duplicates + [Duplicate(First(log, c.cacheKey).dedupeKey, First(log, c.cacheKey).command, 2)])
  {
    var after := duplicates + [Duplicate(First(log, c.cacheKey).dedupeKey, First(log, c.cacheKey).command, 2)];
    AppendCounts(log, c, c.cacheKey);
    forall i | 0 <= i < |after|
      ensures after[i].dedupeKey == DedupeOf(log + [c], i) && after[i].command == CommandOf(log + [c], i)
      ensures after[i].executions == Recorded(log + [c], i)
    {
      if i < |duplicates| {
        AppendKeepsEntries(log, c, i);
        EntryKept(log, c, i);
      } else {
        NewEntryRecordsTwo(log, c);
      }
    }
  }

  /** A new leader is the first key under its dedupe key to run twice, so none has run three times. */
  lemma NewEntryRecordsTwo(log: seq<Command>, c: Command)
    requires Executed(c) && Times(log, c.cacheKey) == 1
    ensures |DuplicateKeys(log + [c])| == |DuplicateKeys(log)| + 1
    ensures Recorded(log + [c], |DuplicateKeys(log)|) == 2
  {
    AppendCounts(log, c, c.cacheKey);
    var i := |DuplicateKeys(log)|;
    var dedupe := DedupeOf(log + [c], i);
    AppendLastRepeat(log, c, dedupe);
    var last := LastRepeat(log, dedupe);
    if last.Some? {
      LastRepeatIs(log, dedupe, last.value);
      DuplicateKeysAre(log, last.value);
      var j :| 0 <= j < i && DuplicateKeys(log)[j] == last.value;
      AppendKeepsEntries(log, c, j);
      assert DedupeOf(log + [c], j) == dedupe && !Leads(log + [c], i);
    }
  }

  /** A later run of key DuplicateKeys(log)[own] updates the entry that leads its dedupe key. */
  lemma LaterRun(log: seq<Command>, duplicates: seq<Duplicate>, c: Command, own: nat)
    requires DuplicatesRefine(log, duplicates) && own < |duplicates| && Runs(c, DuplicateKeys(log)[own])
    ensures FindDuplicate(duplicates, DedupeOf(log, own)) < |duplicates|
    ensures var at := FindDuplicate(duplicates, DedupeOf(log, own));
            DuplicatesRefine(log + [c], duplicates[at := duplicates[at].(executions := Times(log, c.cacheKey) + 1)])
  {
    var at := FindDuplicate(duplicates, DedupeOf(log, own));
    assert at <= own && Leads(log, at);
    var after := duplicates[at := duplicates[at].(executions := Times(log, c.cacheKey) + 1)];
    DuplicateKeysAre(log, c.cacheKey);
    AppendCounts(log, c, c.cacheKey);
    forall i | 0 <= i < |after|
      ensures after[i].dedupeKey == DedupeOf(log + [c], i) && after[i].command == CommandOf(log + [c], i)
      ensures after[i].executions == Recorded(log + [c], i)
    {
      AppendKeepsEntries(log, c, i);
      if i == at {
        LeadsIsStable(log, c, at);
        AppendLastRepeat(log, c, DedupeOf(log, at));
      } else {
        assert Leads(log, i) ==> DedupeOf(log, i) != DedupeOf(log, own);
        EntryKept(log, c, i);
      }
    }
  }

  lemma OtherRun(log: seq<Command>, duplicates: seq<Duplicate>, c: Command)
    requires DuplicatesRefine(log, duplicates) && (Executed(c) ==> Times(log, c.cacheKey) == 0)
    ensures DuplicatesRefine(log + [c], duplicates)
  {
    AppendCounts(log, c, c.cacheKey);
    forall i | 0 <= i < |duplicates|
      ensures duplicates[i].dedupeKey == DedupeOf(log + [c], i) && duplicates[i].command == CommandOf(log + [c], i)
      ensures duplicates[i].executions == Recorded(log + [c], i)
    {
      AppendKeepsEntries(log, c, i);
      EntryKept(log, c, i);
    }
  }

  /** What the charge of one more command is, in terms of the log. */
  ghost predicate ChargeOf(log: seq<Command>, c: Command, charge: Option<KeyCount>) {
    match charge
    case None => !Executed(c)
    case Some(k) =>
      && Executed(c) && k.executions == Times(log, c.cacheKey) + 1
      && (Times(log, c.cacheKey) > 0 ==>
            k.dedupeKey == First(log, c.cacheKey).dedupeKey && k.command == First(log, c.cacheKey).command)
  }

  lemma ChargeIs(log: seq<Command>, counts: CommandCounts, c: Command)
    requires ChargesRefine(log, counts) && |log| < USIZE_MAX
    ensures ChargeOf(log, c, Charge(counts, c).1)
  {
    TimesBounded(log, c.cacheKey);
  }

  lemma CountersKept(log: seq<Command>, e: RunEconomics, c: Command, charge: Option<KeyCount>)
    requires CountersRefine(log, e) && (charge.Some? <==> Executed(c)) && |log| < USIZE_MAX
    ensures CountersRefine(log + [c], Apply(e, c, charge))
  {
    AppendCounts(log, c, c.cacheKey);
    TimesBounded(log, c.cacheKey);
  }

  lemma DuplicatesKept(log: seq<Command>, e: RunEconomics, c: Command, charge: Option<KeyCount>)
    requires DuplicatesRefine(log, e.duplicateCommands) && ChargeOf(log, c, charge)
    ensures DuplicatesRefine(log + [c], Apply(e, c, charge).duplicateCommands)
  {
    if Executed(c) && Times(log, c.cacheKey) == 1 {
      SecondRun(log, e.duplicateCommands, c);
    } else if Executed(c) && Times(log, c.cacheKey) > 1 {
      DuplicateKeysAre(log, c.cacheKey);
      var own :| 0 <= own < |DuplicateKeys(log)| && DuplicateKeys(log)[own] == c.cacheKey;
      LaterRun(log, e.duplicateCommands, c, own);
    } else {
      OtherRun(log, e.duplicateCommands, c);
    }
  }

  /** Recording one more command keeps the incremental economics equal to the recomputed ones. */
  lemma RecordingRefines(log: seq<Command>, counts: CommandCounts, e: RunEconomics, c: Command)
    requires Refines(log, counts, e) && |log| < USIZE_MAX
    ensures var (counts', charge) := Charge(counts, c);
            Refines(log + [c], counts', Apply(e, c, charge))
  {
    ChargeKeepsRefinement(log, counts, c);
    ChargeIs(log, counts, c);
    CountersKept(log, e, c, Charge(counts, c).1);
    DuplicatesKept(log, e, c, Charge(counts, c).1);
  }

  lemma EmptyRefines()
    ensures Refines([], map[], EMPTY)
  {
  }

  /** The counts and the economics after recording a whole log, from nothing. */
  function RecordAll(log: seq<Command>): (CommandCounts, RunEconomics) {
    if log == [] then (map[], EMPTY)
    else
      var (counts, e) := RecordAll(log[..|log| - 1]);
      var c := log[|log| - 1];
      (Charge(counts, c).0, Apply(e, c, Charge(counts, c).1))
  }

  /** Whatever is recorded, the incremental economics are the recomputed ones. */
  lemma {:induction false} RecordAllRefines(log: seq<Command>)
    requires |log| <= USIZE_MAX
    ensures Refines(log, RecordAll(log).0, RecordAll(log).1)
  {
    if log == [] {
      EmptyRefines();
    } else {
      var front, c := log[..|log| - 1], log[|log| - 1];
      RecordAllRefines(front);
      RecordingRefines(front, RecordAll(front).0, RecordAll(front).1, c);
      assert log == front + [c];
    }
  }

  // ---- when the recorded executions are exact

  ghost predicate ExecutionsExact(log: seq<Command>, duplicates: seq<Duplicate>)
    requires |duplicates| == |DuplicateKeys(log)|
  {
    forall i :: 0 <= i < |duplicates| ==> duplicates[i].executions == Times(log, DuplicateKeys(log)[i])
  }

  /** A leader records its own executions while nothing is stolen under its dedupe key. */
  lemma LeaderRecordsOwn(log: seq<Command>, i: nat)
    requires i < |DuplicateKeys(log)| && Leads(log, i)
    requires forall j :: 0 <= j < |DuplicateKeys(log)| ==> !Stolen(log, j)
    ensures Recorded(log, i) == Times(log, DuplicateKeys(log)[i])
  {
    var own, dedupe := DuplicateKeys(log)[i], DedupeOf(log, i);
    var last := LastRepeat(log, dedupe);
    DuplicateKeysAre(log, own);
    LastRepeatIs(log, dedupe, own);
    if last.Some? {
      LastRepeatIs(log, dedupe, last.value);
      DuplicateKeysAre(log, last.value);
      var j :| 0 <= j < |DuplicateKeys(log)| && DuplicateKeys(log)[j] == last.value;
      assert !Stolen(log, j) && DedupeOf(log, j) == dedupe;
      assert j == i;
    }
  }

  /** The recorded executions are the true counts exactly when no key that ran more than twice
      shares its dedupe key with a key that became a duplicate before it. */
  lemma ExactUnlessStolen(log: seq<Command>, duplicates: seq<Duplicate>)
    requires DuplicatesRefine(log, duplicates)
    ensures ExecutionsExact(log, duplicates) <==> forall j :: 0 <= j < |duplicates| ==> !Stolen(log, j)
  {
    forall i | 0 <= i < |duplicates|
      ensures Times(log, DuplicateKeys(log)[i]) >= 2 && duplicates[i].executions == Recorded(log, i)
    {
      DuplicateKeysAre(log, DuplicateKeys(log)[i]);
    }
    if forall j :: 0 <= j < |duplicates| ==> !Stolen(log, j) {
      forall i | 0 <= i < |duplicates|
        ensures duplicates[i].executions == Times(log, DuplicateKeys(log)[i])
      {
        assert !Stolen(log, i);
        if Leads(log, i) {
          LeaderRecordsOwn(log, i);
        }
      }
    }
    if j :| 0 <= j < |duplicates| && Stolen(log, j) {
      assert duplicates[j].executions == 2;
    }
  }

  /** In particular they are exact when different cache keys have different dedupe keys. */
  lemma ExactWhenOneToOne(log: seq<Command>, duplicates: seq<Duplicate>)
    requires DuplicatesRefine(log, duplicates)
    requires forall c, d :: c in log && d in log && Executed(c) && Executed(d) && c.dedupeKey == d.dedupeKey ==> c.cacheKey == d.cacheKey
    ensures ExecutionsExact(log, duplicates)
  {
    forall j | 0 <= j < |duplicates|
      ensures !Stolen(log, j)
    {
      DuplicateKeysAre(log, DuplicateKeys(log)[j]);
      forall i | 0 <= i < j
        ensures DedupeOf(log, i) != DedupeOf(log, j)
      {
        DuplicateKeysAre(log, DuplicateKeys(log)[i]);
        var a, b := First(log, DuplicateKeys(log)[i]), First(log, DuplicateKeys(log)[j]);
        assert a in log && b in log;
      }
    }
    ExactUnlessStolen(log, duplicates);
  }

  /** Two cache keys under one dedupe key: recording a, a, b, b, b charges the third run of b to the entry of a,
      which then records three runs instead of two, and b's own entry two instead of three. */
  lemma SharedDedupeKeyIsInexact(a: Command, b: Command)
    requires Executed(a) && Executed(b) && a.cacheKey != b.cacheKey && a.dedupeKey == b.dedupeKey
    ensures RecordAll([a, a, b, b, b]).1.duplicateCommands
         == [Duplicate(a.dedupeKey, a.command, 3), Duplicate(b.dedupeKey, b.command, 2)]
    ensures Times([a, a, b, b, b], a.cacheKey) == 2 && Times([a, a, b, b, b], b.cacheKey) == 3
  {
    var log := [a, a, b, b, b];
    var duplicates := RecordAll(log).1.duplicateCommands;
    SharedDedupeKeyCounts(a, b);
    RecordAllRefines(log);
    assert DuplicatesRefine(log, duplicates) && |duplicates| == 2;
    SharedRecords(a, b, log);
  }

  lemma SharedRecords(a: Command, b: Command, log: seq<Command>)
    requires Executed(a) && Executed(b) && a.cacheKey != b.cacheKey && a.dedupeKey == b.dedupeKey
    requires log == [a, a, b, b, b]
    ensures |DuplicateKeys(log)| == 2 && Recorded(log, 0) == 3 && Recorded(log, 1) == 2
    ensures DedupeOf(log, 0) == a.dedupeKey && CommandOf(log, 0) == a.command
    ensures DedupeOf(log, 1) == b.dedupeKey && CommandOf(log, 1) == b.command
  {
    SharedDedupeKeyCounts(a, b);
    SharedLastRepeat(a, b);
    assert DedupeOf(log, 0) == DedupeOf(log, 1) == a.dedupeKey;
    assert Leads(log, 0) && !Leads(log, 1);
  }

  lemma SharedLastRepeat(a: Command, b: Command)
    requires Executed(a) && Executed(b) && a.cacheKey != b.cacheKey && a.dedupeKey == b.dedupeKey
    ensures LastRepeat([a, a, b, b, b], a.dedupeKey) == Some(b.cacheKey)
  {
    var four := [a, a, b, b];
    FourCounts(a, b);
    AppendLastRepeat(four, b, a.dedupeKey);
    assert four + [b] == [a, a, b, b, b];
  }

  lemma FourCounts(a: Command, b: Command)
    requires Executed(a) && Executed(b) && a.cacheKey != b.cacheKey
    ensures DuplicateKeys([a, a, b, b]) == [a.cacheKey, b.cacheKey]
    ensures Times([a, a, b, b], a.cacheKey) == 2 && Times([a, a, b, b], b.cacheKey) == 2
    ensures First([a, a, b, b], a.cacheKey) == a && First([a, a, b, b], b.cacheKey) == b
  {
    var none: seq<Command> := [];
    var two := none + [a, a];
    RunTwice(none, a, a.cacheKey);
    RunTwice(none, a, b.cacheKey);
    RunTwice(two, b, a.cacheKey);
    RunTwice(two, b, b.cacheKey);
    assert two + [b, b] == [a, a, b, b];
  }

  lemma SharedDedupeKeyCounts(a: Command, b: Command)
    requires Executed(a) && Executed(b) && a.cacheKey != b.cacheKey
    ensures DuplicateKeys([a, a, b, b, b]) == [a.cacheKey, b.cacheKey]
    ensures Times([a, a, b, b, b], a.cacheKey) == 2 && Times([a, a, b, b, b], b.cacheKey) == 3
    ensures First([a, a, b, b, b], a.cacheKey) == a && First([a, a, b, b, b], b.cacheKey) == b
  {
    var four := [a, a, b, b];
    FourCounts(a, b);
    AppendCounts(four, b, a.cacheKey);
    AppendCounts(four, b, b.cacheKey);
    assert four + [b] == [a, a, b, b, b];
  }

  lemma RunTwice(log: seq<Command>, c: Command, key: string)
    requires Executed(c) && Times(log, c.cacheKey) == 0
    ensures Times(log + [c, c], key) == Times(log, key) + if c.cacheKey == key then 2 else 0
    ensures Times(log, key) > 0 ==> First(log + [c, c], key) == First(log, key)
    ensures First(log + [c, c], c.cacheKey) == c
    ensures DuplicateKeys(log + [c, c]) == DuplicateKeys(log) + [c.cacheKey]
  {
    AppendCounts(log, c, key);
    AppendCounts(log, c, c.cacheKey);
    AppendCounts(log + [c], c, key);
    AppendCounts(log + [c], c, c.cacheKey);
    assert log + [c] + [c] == log + [c, c];
  }
}
