/** Recording from several threads: the per-key counts and the economics sit behind different locks, so
    a command's charge and its entry in the economics are two steps, and charges may be applied out of order. */
module RecordingRace {
  import opened Outcomes
  import opened CommandLog
  import opened Economics
  import Graphs
  import Collections

  type Thread = nat

  datatype Charged = Charged(command: Command, charge: Option<KeyCount>)

  /** `entered` and `last` only observe the run: the keys whose duplicate entry was opened, in entry order,
      and per key the last charge of at least two that was applied. */
  datatype State = State(
    counts: CommandCounts, pending: map<Thread, Charged>, economics: RunEconomics,
    entered: seq<string>, last: map<string, nat>)

  datatype Step = ChargeStep(thread: Thread, command: Command) | ApplyStep(thread: Thread)

  const START := State(map[], map[], EMPTY, [], map[])

  predicate Enabled(s: State, step: Step) {
    match step
    case ChargeStep(t, _) => t !in s.pending
    case ApplyStep(t) => t in s.pending
  }

  function Next(s: State, step: Step): State
    requires Enabled(s, step)
  {
    match step
    case ChargeStep(t, c) =>
      var (counts, charge) := Charge(s.counts, c);
      s.(counts := counts, pending := s.pending[t := Charged(c, charge)])
    case ApplyStep(t) =>
      var p := s.pending[t];
      var key := p.command.cacheKey;
      var n := if p.charge.Some? then p.charge.value.executions else 0;
      s.(economics := Apply(s.economics, p.command, p.charge), pending := s.pending - {t},
         entered := if n == 2 then s.entered + [key] else s.entered,
         last := if n >= 2 then s.last[key := n] else s.last)
  }

  function ChargedRuns(s: State, key: string): nat {
    if key in s.counts then s.counts[key].executions else 0
  }

  /** Thread t still has to apply the n-th run of this key. */
  ghost predicate Owes(s: State, t: Thread, key: string, n: nat) {
    && t in s.pending && s.pending[t].command.cacheKey == key
    && s.pending[t].charge.Some? && s.pending[t].charge.value.executions == n
  }

  ghost function Owing(s: State, key: string): set<Thread> {
    set t | t in s.pending && CommandLog.Runs(s.pending[t].command, key)
  }

  ghost predicate PendingOk(s: State, p: Charged) {
    && (p.charge.Some? <==> Executed(p.command))
    && (p.charge.Some? ==>
          && p.command.cacheKey in s.counts
          && 0 < p.charge.value.executions <= s.counts[p.command.cacheKey].executions
          && p.charge.value.dedupeKey == s.counts[p.command.cacheKey].dedupeKey)
  }

  /** The second run of a key is owed by exactly one thread or has opened the key's entry, never both. */
  ghost predicate SecondRunOnce(s: State) {
    && Graphs.Distinct(s.entered)
    && (forall t, u, key :: Owes(s, t, key, 2) && Owes(s, u, key, 2) ==> t == u)
    && (forall t, key :: Owes(s, t, key, 2) ==> key !in s.entered && ChargedRuns(s, key) >= 2)
    && (forall key :: key in s.entered ==> ChargedRuns(s, key) >= 2)
    && (forall key :: ChargedRuns(s, key) >= 2 ==> key in s.entered || exists t :: Owes(s, t, key, 2))
  }

  ghost predicate EntriesOk(s: State) {
    && |s.entered| == |s.economics.duplicateCommands|
    && forall i :: 0 <= i < |s.entered| ==>
                     s.entered[i] in s.counts && s.entered[i] in s.last
                     && s.economics.duplicateCommands[i].dedupeKey == s.counts[s.entered[i]].dedupeKey
  }

  /** Different cache keys have different dedupe keys. */
  ghost predicate OneToOne(counts: CommandCounts) {
    forall a, b :: a in counts && b in counts && a != b ==> counts[a].dedupeKey != counts[b].dedupeKey
  }

  ghost predicate LastApplied(s: State) {
    forall i :: 0 <= i < |s.entered| && i < |s.economics.duplicateCommands| && s.entered[i] in s.last ==>
                  s.economics.duplicateCommands[i].executions == s.last[s.entered[i]]
  }

  ghost predicate CountMatches(s: State, key: string) {
    ChargedRuns(s, key) == Times(s.economics.commandExecutions, key) + |Owing(s, key)|
  }

  ghost predicate CountsMatch(s: State) {
    forall key :: CountMatches(s, key)
  }

  ghost predicate Inv(s: State) {
    && (forall t :: t in s.pending ==> PendingOk(s, s.pending[t]))
    && (forall key :: key in s.counts ==> s.counts[key].executions > 0)
    && CountersRefine(s.economics.commandExecutions, s.economics)
    && CountsMatch(s) && SecondRunOnce(s) && EntriesOk(s)
    && (OneToOne(s.counts) ==> LastApplied(s))
  }

  /** A machine word can count every command, recorded or pending. */
  ghost predicate Fits(s: State) {
    |s.economics.commandExecutions| + |s.pending| < USIZE_MAX
  }

  lemma OwingBounded(s: State, key: string)
    ensures |Owing(s, key)| <= |s.pending|
  {
    Collections.SubsetSize(Owing(s, key), s.pending.Keys);
  }

  lemma RunsBounded(s: State, key: string)
    requires CountsMatch(s) && Fits(s)
    ensures ChargedRuns(s, key) < USIZE_MAX
  {
    assert CountMatches(s, key);
    OwingBounded(s, key);
    TimesBounded(s.economics.commandExecutions, key);
  }

  // ---- charging

  lemma ChargeEffect(s: State, t: Thread, c: Command, key: string)
    requires Inv(s) && Fits(s) && t !in s.pending
    ensures ChargedRuns(Next(s, ChargeStep(t, c)), key) == ChargedRuns(s, key) + if CommandLog.Runs(c, key) then 1 else 0
    ensures Owing(Next(s, ChargeStep(t, c)), key) == Owing(s, key) + if CommandLog.Runs(c, key) then {t} else {}
    ensures Owes(Next(s, ChargeStep(t, c)), t, key, 2) <==> CommandLog.Runs(c, key) && ChargedRuns(s, key) == 1
  {
    RunsBounded(s, c.cacheKey);
    ChargeOwing(s, t, c, key);
  }

  lemma ChargeOwing(s: State, t: Thread, c: Command, key: string)
    requires t !in s.pending
    ensures Owing(Next(s, ChargeStep(t, c)), key) == Owing(s, key) + if CommandLog.Runs(c, key) then {t} else {}
  {
  }

  lemma ChargeSecondRun(s: State, t: Thread, c: Command)
    requires Inv(s) && Fits(s) && t !in s.pending
    ensures SecondRunOnce(Next(s, ChargeStep(t, c)))
  {
    var s' := Next(s, ChargeStep(t, c));
    forall u, key, n | u != t
      ensures Owes(s', u, key, n) <==> Owes(s, u, key, n)
    {
    }
    forall key
      ensures ChargedRuns(s', key) == ChargedRuns(s, key) + if CommandLog.Runs(c, key) then 1 else 0
      ensures Owes(s', t, key, 2) <==> CommandLog.Runs(c, key) && ChargedRuns(s, key) == 1
    {
      ChargeEffect(s, t, c, key);
    }
    forall key | ChargedRuns(s', key) >= 2 && key !in s'.entered
      ensures exists u :: Owes(s', u, key, 2)
    {
      if ChargedRuns(s, key) >= 2 {
        var u :| Owes(s, u, key, 2);
        assert Owes(s', u, key, 2);
      } else {
        assert Owes(s', t, key, 2);
      }
    }
  }

  lemma ChargeCounts(s: State, t: Thread, c: Command)
    requires Inv(s) && Fits(s) && t !in s.pending
    ensures CountsMatch(Next(s, ChargeStep(t, c)))
  {
    forall key
      ensures CountMatches(Next(s, ChargeStep(t, c)), key)
    {
      assert CountMatches(s, key);
      ChargeEffect(s, t, c, key);
      assert t !in Owing(s, key);
    }
  }

  lemma ChargeKeepsInv(s: State, t: Thread, c: Command)
    requires Inv(s) && Fits(s) && t !in s.pending
    ensures Inv(Next(s, ChargeStep(t, c)))
  {
    var s' := Next(s, ChargeStep(t, c));
    RunsBounded(s, c.cacheKey);
    ChargeCounts(s, t, c);
    ChargeSecondRun(s, t, c);
    assert forall key :: key in s.counts ==> key in s'.counts && s'.counts[key].dedupeKey == s.counts[key].dedupeKey
                                             && s.counts[key].executions <= s'.counts[key].executions;
    assert OneToOne(s'.counts) ==> OneToOne(s.counts);
  }

  // ---- applying

  /** The number of the run that thread t owes, 0 if its command did not run. */
  function Owed(s: State, t: Thread): nat
    requires t in s.pending
  {
    if s.pending[t].charge.Some? then s.pending[t].charge.value.executions else 0
  }

  lemma ApplySecondRun(s: State, t: Thread)
    requires Inv(s) && t in s.pending
    ensures SecondRunOnce(Next(s, ApplyStep(t)))
  {
    var s' := Next(s, ApplyStep(t));
    var own := s.pending[t].command.cacheKey;
    assert Owed(s, t) == 2 ==> Owes(s, t, own, 2);
    forall u, key, n
      ensures Owes(s', u, key, n) <==> u != t && Owes(s, u, key, n)
    {
    }
    forall key
      ensures key in s'.entered <==> key in s.entered || (Owed(s, t) == 2 && key == own)
    {
    }
    forall key | ChargedRuns(s', key) >= 2 && key !in s'.entered
      ensures exists u :: Owes(s', u, key, 2)
    {
      var u :| Owes(s, u, key, 2);
      assert Owes(s', u, key, 2);
    }
  }

  lemma ApplyEntersLog(e: RunEconomics, c: Command, charge: Option<KeyCount>)
    ensures Apply(e, c, charge).commandExecutions == e.commandExecutions + [c]
  {
  }

  lemma ApplyOwing(s: State, t: Thread, key: string)
    requires t in s.pending
    ensures |Owing(Next(s, ApplyStep(t)), key)| + (if CommandLog.Runs(s.pending[t].command, key) then 1 else 0) == |Owing(s, key)|
  {
    var after := Owing(Next(s, ApplyStep(t)), key);
    if CommandLog.Runs(s.pending[t].command, key) {
      assert Owing(s, key) == after + {t} && t !in after;
    } else {
      assert Owing(s, key) == after;
    }
  }

  lemma ApplyCounts(s: State, t: Thread)
    requires Inv(s) && t in s.pending
    ensures CountsMatch(Next(s, ApplyStep(t)))
  {
    forall key
      ensures CountMatches(Next(s, ApplyStep(t)), key)
    {
      assert CountMatches(s, key);
      ApplyEntersLog(s.economics, s.pending[t].command, s.pending[t].charge);
      AppendCounts(s.economics.commandExecutions, s.pending[t].command, key);
      ApplyOwing(s, t, key);
    }
  }

  lemma ApplyEntries(s: State, t: Thread)
    requires Inv(s) && t in s.pending
    ensures EntriesOk(Next(s, ApplyStep(t)))
  {
  }

  lemma ApplyOpens(s: State, t: Thread)
    requires Inv(s) && t in s.pending && Owed(s, t) == 2 && LastApplied(s)
    ensures LastApplied(Next(s, ApplyStep(t)))
  {
    assert Owes(s, t, s.pending[t].command.cacheKey, 2);
  }

  lemma ApplyUpdates(s: State, t: Thread)
    requires Inv(s) && t in s.pending && Owed(s, t) > 2 && LastApplied(s) && OneToOne(s.counts)
    ensures LastApplied(Next(s, ApplyStep(t)))
  {
    var p, before := s.pending[t], s.economics.duplicateCommands;
    var key, at := p.command.cacheKey, FindDuplicate(before, p.charge.value.dedupeKey);
    forall i | 0 <= i < |before|
      ensures s.entered[i] == key <==> i == at
    {
      assert before[i].dedupeKey == s.counts[s.entered[i]].dedupeKey;
      assert at < |before| ==> before[at].dedupeKey == s.counts[s.entered[at]].dedupeKey;
    }
  }

  lemma ApplyKeepsInv(s: State, t: Thread)
    requires Inv(s) && Fits(s) && t in s.pending
    ensures Inv(Next(s, ApplyStep(t)))
  {
    var p := s.pending[t];
    ApplySecondRun(s, t);
    ApplyCounts(s, t);
    ApplyEntries(s, t);
    if OneToOne(s.counts) {
      if Owed(s, t) == 2 {
        ApplyOpens(s, t);
      } else if Owed(s, t) > 2 {
        ApplyUpdates(s, t);
      }
    }
    CountersKept(s.economics.commandExecutions, s.economics, p.command, p.charge);
  }

  // ---- runs

  ghost predicate IsRun(s: State, run: seq<Step>, end: State)
    decreases |run|
  {
    if run == [] then s == end
    else Fits(s) && Enabled(s, run[0]) && IsRun(Next(s, run[0]), run[1..], end)
  }

  lemma {:induction false} RunKeepsInv(s: State, run: seq<Step>, end: State)
    requires Inv(s) && IsRun(s, run, end)
    ensures Inv(end)
    decreases |run|
  {
    if run != [] {
      match run[0] {
        case ChargeStep(t, c) => ChargeKeepsInv(s, t, c);
        case ApplyStep(t) => ApplyKeepsInv(s, t);
      }
      RunKeepsInv(Next(s, run[0]), run[1..], end);
    }
  }

  /** After every interleaving, once nothing is pending: the counts are the true ones, and duplicates and
      violations number the keys that ran at least twice. */
  lemma QuiescentCounts(run: seq<Step>, s: State)
    requires IsRun(START, run, s) && s.pending == map[]
    ensures CountersRefine(s.economics.commandExecutions, s.economics)
    ensures forall key :: ChargedRuns(s, key) == Times(s.economics.commandExecutions, key)
    ensures s.economics.duplicateCommandCount == |s.economics.slaViolations|
                                              == |set key | key in s.counts && s.counts[key].executions >= 2|
  {
    RunKeepsInv(START, run, s);
    forall key
      ensures ChargedRuns(s, key) == Times(s.economics.commandExecutions, key)
    {
      assert CountMatches(s, key) && Owing(s, key) == {};
    }
    EnteredAreDuplicates(s);
  }

  lemma EnteredAreDuplicates(s: State)
    requires SecondRunOnce(s) && s.pending == map[]
    ensures |s.entered| == |set key | key in s.counts && s.counts[key].executions >= 2|
  {
    var twice := set key | key in s.counts && s.counts[key].executions >= 2;
    forall key
      ensures key in twice <==> key in s.entered
    {
      assert key in twice <==> ChargedRuns(s, key) >= 2;
    }
    Collections.DistinctCount(s.entered, twice);
  }
}
