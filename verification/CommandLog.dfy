/** The command execution log and what is recomputed from it: hits, misses, executions per cache key, duplicates. */
module CommandLog {

  datatype Command = Command(command: string, status: string, dedupeKey: string, cacheKey: string, cacheHit: bool)

  predicate Skipped(c: Command) {
    c.status == "skipped"
  }

  /** The command really ran: it was neither skipped nor answered from the cache. */
  predicate Executed(c: Command) {
    !c.cacheHit && !Skipped(c)
  }

  ghost function Hits(log: seq<Command>): nat {
    if log == [] then 0
    else Hits(log[..|log| - 1]) + if log[|log| - 1].cacheHit && !Skipped(log[|log| - 1]) then 1 else 0
  }

  ghost function Skips(log: seq<Command>): nat {
    if log == [] then 0 else Skips(log[..|log| - 1]) + if Skipped(log[|log| - 1]) then 1 else 0
  }

  ghost function Executions(log: seq<Command>): nat {
    if log == [] then 0 else Executions(log[..|log| - 1]) + if Executed(log[|log| - 1]) then 1 else 0
  }

  /** How often a command with this cache key ran. */
  ghost function Times(log: seq<Command>, key: string): nat {
    if log == [] then 0
    else Times(log[..|log| - 1], key) + if Runs(log[|log| - 1], key) then 1 else 0
  }

  ghost predicate Runs(c: Command, key: string) {
    Executed(c) && c.cacheKey == key
  }

  /** The first command that ran under this cache key. */
  ghost function First(log: seq<Command>, key: string): (c: Command)
    requires Times(log, key) > 0
    ensures c in log && Runs(c, key)
  {
    var front := log[..|log| - 1];
    if Times(front, key) > 0 then First(front, key) else log[|front|]
  }

  /** The cache keys that ran at least twice, in the order of their second run. */
  ghost function DuplicateKeys(log: seq<Command>): seq<string> {
    if log == [] then []
    else
      var front, c := log[..|log| - 1], log[|log| - 1];
      DuplicateKeys(front) + if Executed(c) && Times(front, c.cacheKey) == 1 then [c.cacheKey] else []
  }

  lemma {:induction false} DuplicateKeysAre(log: seq<Command>, key: string)
    ensures key in DuplicateKeys(log) <==> Times(log, key) >= 2
    ensures forall i, j :: 0 <= i < j < |DuplicateKeys(log)| ==> DuplicateKeys(log)[i] != DuplicateKeys(log)[j]
  {
    if log != [] {
      var front, c := log[..|log| - 1], log[|log| - 1];
      DuplicateKeysAre(front, key);
      DuplicateKeysAre(front, c.cacheKey);
    }
  }

  lemma {:induction false} EntriesAddUp(log: seq<Command>)
    ensures Hits(log) + Executions(log) + Skips(log) == |log|
  {
    if log != [] {
      EntriesAddUp(log[..|log| - 1]);
    }
  }

  lemma {:induction false} TimesBounded(log: seq<Command>, key: string)
    ensures Times(log, key) <= Executions(log) <= |log|
  {
    if log != [] {
      TimesBounded(log[..|log| - 1], key);
    }
  }

  lemma Append(log: seq<Command>, c: Command)
    ensures (log + [c])[..|log|] == log && (log + [c])[|log|] == c
  {
  }

  // ---- the sum of the per-key counts

  ghost function Total(counts: map<string, nat>): nat {
    if counts == map[] then 0
    else
      var k :| k in counts;
      counts[k] + Total(counts - {k})
  }

  /** The total does not depend on the order in which the keys are taken. */
  lemma {:induction false} TotalTake(counts: map<string, nat>, key: string)
    requires key in counts
    ensures Total(counts) == counts[key] + Total(counts - {key})
    decreases |counts|
  {
    var k :| k in counts && Total(counts) == counts[k] + Total(counts - {k});
    if k != key {
      SmallerMap(counts, k);
      SmallerMap(counts, key);
      TotalTake(counts - {k}, key);
      TotalTake(counts - {key}, k);
      assert counts - {k} - {key} == counts - {key} - {k};
    }
  }

  lemma SmallerMap(counts: map<string, nat>, key: string)
    requires key in counts
    ensures |counts - {key}| == |counts| - 1
  {
    assert (counts - {key}).Keys == counts.Keys - {key};
  }

  lemma TotalBump(counts: map<string, nat>, key: string, n: nat)
    ensures Total(counts[key := n]) == Total(counts - {key}) + n
  {
    var bumped := counts[key := n];
    TotalTake(bumped, key);
    assert bumped - {key} == counts - {key};
  }

  ghost predicate CountsLog(counts: map<string, nat>, log: seq<Command>) {
    && (forall key :: key in counts <==> Times(log, key) > 0)
    && forall key :: key in counts ==> counts[key] == Times(log, key)
  }

  /** Counting per key and summing gives the number of commands that ran. */
  lemma {:induction false} KeyCountsAddUp(log: seq<Command>, counts: map<string, nat>)
    requires CountsLog(counts, log)
    ensures Total(counts) == Executions(log)
  {
    if log == [] {
      assert forall key :: Times(log, key) == 0;
    } else {
      var front, c := log[..|log| - 1], log[|log| - 1];
      if !Executed(c) {
        KeyCountsAddUp(front, counts);
      } else {
        var key := c.cacheKey;
        var before := if Times(front, key) == 0 then counts - {key} else counts[key := Times(front, key)];
        assert CountsLog(before, front);
        KeyCountsAddUp(front, before);
        TotalTake(counts, key);
        if Times(front, key) > 0 {
          TotalBump(counts, key, Times(front, key));
        }
      }
    }
  }
}
