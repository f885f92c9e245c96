# Khazad-Doom: verified models

Dafny models of the parts of Khazad-Doom whose correctness is hard to see from one function, and proofs of
what they promise. `dafny verify dfyconfig.toml` checks everything.

The modules follow the program.

- **Slices.** `Graphs`, `Slices`, `SortedIds`: dependency graphs over slice ids. `CycleIssues`,
  `TopologicalOrder`, `DependencyLayers`, `Validation`: the recursive cycle finder, the dependency closure and
  its depth-first order, the layering loop, and their agreement. A missing dependency is skipped unless the
  closure of a request meets it; of several slices with one id the last stays. A cycle issue may name a slice
  that is not itself on the cycle, because `visiting` is never cleaned after a failure: what holds is that the
  named slice is reachable and reaches a cycle. `SliceClosure`: closing slice files, once.
- **Run economics.** `CommandLog`, `Economics`, `Recorder`: incremental counters against recomputation from
  the log, for one thread. `Checkpoints`: any number of threads changing, bumping and writing checkpoints.
  `RecordingRace`, `RecordingExactness`: recordings of several threads, whose per-key counts and economics sit
  behind two locks. Exact executions per duplicate do not hold in general. For one thread they are exact if and
  only if no key that ran more than twice shares its dedupe key with a key that became a duplicate before it.
  For several threads, with one dedupe key per cache key, a duplicate is exact if and only if the last run of
  its key did not overtake another from the second on; so recording the commands of each cache key one after
  the other suffices. With shared dedupe keys it depends on what was written last. Both failures come with a run
  that shows them, and with what is recorded instead.
- **Streams.** `BoundedTail`, `Utf8Text`, `LineStream`, `FileReads`, `FileLines`, `ActivityPainter`, `PiParser`,
  `ActivityFormatter`, `ActivityDisplay`, `LaunchFlags`: tails bounded in bytes and lines, readers of growing files, the chunked line
  parser with its spool, and the formatter that coalesces deltas. Results do not depend on how a stream was cut,
  but for one: the activity painter decodes the unterminated rest of a file too, and ends when it finds it cut
  inside a character. It shows a growing UTF-8 file to the end if and only if no poll does. Lossy decoding is a
  function nothing is known about but that its results are text, so decoded tails are independent of the cutting
  when the chunks are text.
- **Files.** `JsonReplacement`: atomic replacement by concurrent writers over a file system in which contents
  and directory entries reach the disk late. A crash may happen in any state: what it leaves is what is
  durable there. Other processes may leave entries in the directory, but do not remove a writer's temporary
  file.
- **Text.** `AgentProfiles`, `ProfileRoundTrip`, `ProfileErrors`: the reader of the agent profile file, the files
  it reads back, and what it rejects. `ShellQuoting`: both quoters against the shell's own reading of words (IEEE Std 1003.1-2017, Shell
  Command Language, section 2.2), and the environment file. `Display`, `Wrapping`, `Frames`: widths, escape
  codes, truncation, wrapping, and the frames of the monitor. The program measures characters with one table
  and texts with another, and so does the model; what fits is proved for texts over an alphabet on which the
  tables agree (`Display.Measures`), and frames fit for any content if they agree on the program's own lines.
  Elsewhere truncation may exceed its width, and even lengthen a text: `Display.TruncationFitsExactly` and
  `Display.TruncationLengthens` say exactly when.
- `Outcomes`, `Collections` and `Strings` hold what the others share.

A recorder, a reader, a spool, a formatter and an artifact store are classes with the fields the program
updates. A `&mut` parameter of a free function is a value that goes in and comes out. Loops are loops. Where a
loop body is long it is a method of its own (`NextLayer`, `TakeLayer`, `ParseItems`, `KeepLines`, `FillLines`,
`AppendBody`, ...). Clocks, write outcomes and read failures are parameters.

## Model

| member | source | states |
|---|---|---|
| `Slices.ByIdHoldsLast` | src/artifact.rs:1311-1314 | of several slices with one id, the map the algorithms work on holds the last; it holds every id and no other |
| `Slices.PresentDepsKeepCycles` | src/artifact.rs:1342-1352 | leaving absent dependencies out of the graph changes none of its cycles |
| `Graphs.NoSinkHasCycle` | src/artifact.rs:1353-1355 | a non-empty set in which every vertex has a successor inside the set holds a cycle: why a layering loop that finds nothing ready may give up |
| `Graphs.OrderedIsAcyclic` | src/artifact.rs:1310-1331 | a graph that can be listed with every dependency before its dependents has no cycle |
| `CycleIssues.VisitCycle` | src/artifact.rs:1446-1465 | one visit succeeds exactly when no cycle is reachable through present ids, whatever stale ids earlier failures left in `visiting`; it terminates; a failure names a reachable slice that itself reaches a cycle |
| `CycleIssues.Find` | src/artifact.rs:1430-1444 | the reported slices are, in order and with repetitions, exactly those that reach a cycle; nothing is reported exactly when there is no cycle |
| `TopologicalOrder.CollectWithDependencies` | src/artifact.rs:1385-1400 | terminates on cyclic graphs; adds the id and everything it reaches, nothing else; fails only with a reachable id that does not exist |
| `TopologicalOrder.WantedSliceIds` | src/artifact.rs:1369-1383 | the least dependency-closed set that contains the request, or all slices for an empty request |
| `TopologicalOrder.ClosureIsClosed` | src/artifact.rs:1385-1400 | the closure of a request is closed under present dependencies |
| `TopologicalOrder.VisitOrdered` | src/artifact.rs:1402-1428 | one depth-first visit lists the id after all its wanted dependencies, keeps the list so far as a prefix and leaves `visiting` as it was; a cycle it reports is a real one through the named slice |
| `TopologicalOrder.OrderWanted` | src/artifact.rs:1317-1330 | the loop over the wanted ids lists each of them once, dependencies first, or names a slice on a cycle |
| `TopologicalOrder.TopologicalOrder` | src/artifact.rs:1310-1331 | succeeds exactly when the closure of the request holds no unknown id and no cycle; then each member of the closure occurs once, dependencies first; otherwise the error names a culprit inside the closure |
| `TopologicalOrder.OrderableAll` | src/artifact.rs:1374-1376 | with no request, an order exists exactly when the whole graph is acyclic |
| `DependencyLayers.ReadyIds` | src/artifact.rs:1342-1352 | the ready ids are exactly the pending ones all of whose selected dependencies are completed, in key order |
| `DependencyLayers.TakeLayer` | src/artifact.rs:1356-1363 | moves exactly the ready slices from pending to the layer and marks them completed |
| `DependencyLayers.NextLayer` | src/artifact.rs:1341-1365 | one round of the loop adds the next layer and shrinks pending, or finds nothing ready, and then there is a cycle |
| `DependencyLayers.Layers` | src/artifact.rs:1333-1367 | terminates; fails exactly when the selected slices have a cycle among themselves; otherwise layer k is exactly the slices whose longest dependency chain inside the selection has length k, sorted, none empty, all of them covered |
| `DependencyLayers.LayeringIsAcyclic` | src/artifact.rs:1333-1367 | a selection that can be layered has no cycle |
| `DependencyLayers.LayersConcatenateToOrder` | src/artifact.rs:1310-1367 | the layers one after the other are themselves a topological order of all slices |
| `DependencyLayers.ThreeVerdicts` | src/artifact.rs:1281-1465 | cycle reporting, ordering without a request and layering accept exactly the same slice lists |
| `Validation.DuplicateIssues` | src/artifact.rs:1283-1293 | exactly the ids that occur more than once are reported, with their number of occurrences |
| `Validation.MissingIssues` | src/artifact.rs:1294-1305 | exactly the dependencies on absent ids are reported, each for its slice |
| `Validation.CyclicIssues` | src/artifact.rs:1306 | exactly the slices that reach a cycle are reported |
| `Validation.ValidateSliceSet` | src/artifact.rs:1281-1308 | no issue exactly when ids are distinct, dependencies present and the graph acyclic; each kind of issue is reported for exactly its slices |
| `Validation.ValidSetOrders` | src/artifact.rs:1281-1331 | on a valid set, every request for existing slices can be ordered, and its closure holds all dependencies |
| `Validation.ValidSetLayers` | src/artifact.rs:1281-1367 | on a valid set, each dependency of a slice sits in an earlier layer |
| `CommandLog.EntriesAddUp` | src/workflow/economics.rs:128-134 | hits, executions and skips of a log are all its entries |
| `CommandLog.KeyCountsAddUp` | src/workflow/economics.rs:113-125 | counts that agree with a log key by key sum to its executions |
| `CommandLog.DuplicateKeysAre` | src/workflow/economics.rs:138-150 | the keys in order of their second run are exactly those executed at least twice, without repetition |
| `Economics.FindDuplicate` | src/workflow/economics.rs:150-154 | the first entry with a dedupe key, which is the one a later execution updates |
| `Economics.RecordingRefines` | src/workflow/economics.rs:112-162 | recording one command keeps every counter equal to its recomputation from the log: executions, hits, misses, per-key counts, duplicates and violations |
| `Economics.RecordAllRefines` | src/workflow/economics.rs:112-162 | after any log recorded from the start, each duplicate entry records a determined number: two for an entry behind another with its dedupe key; for the first one the executions of the key that was last to run a third or later time under that dedupe key, its own or another |
| `Economics.ExactUnlessStolen` | src/workflow/economics.rs:150-157 | the recorded executions of all duplicates are exact if and only if no key that ran more than twice shares its dedupe key with a key that became a duplicate before it |
| `Economics.ExactWhenOneToOne` | src/workflow/economics.rs:112-162 | when executed commands with one dedupe key have one cache key, the recorded executions are exact |
| `Economics.SharedDedupeKeyIsInexact` | src/workflow/economics.rs:150-157 | two cache keys a and b with one dedupe key: recording a, a, b, b, b records three executions for a and two for b |
| `Recorder.ChargeKey` | src/workflow/economics.rs:113-125 | the per-key count of an executed command goes up by one and keeps the first dedupe key and text; other commands charge nothing |
| `Recorder.EnterCommand` | src/workflow/economics.rs:126-160 | the counters, the duplicates and the log after one command, updated in place in the order of the code, are those that `RecordingRefines` is about |
| `Recorder.ApplyCount` | src/workflow/economics.rs:135-158 | a second run opens a duplicate entry and a violation; a later run updates the first entry with its dedupe key |
| `Recorder.RunEconomicsRecorder.constructor` | src/workflow/economics.rs:33-56 | a new recorder agrees with the empty log and has nothing on disk |
| `Recorder.RunEconomicsRecorder.WithSnapshotPathAndInterval` | src/workflow/economics.rs:63-78 | sets path and interval and forces a checkpoint: if the write succeeds the file equals memory |
| `Recorder.RunEconomicsRecorder.RecordCommand` | src/workflow/economics.rs:112-162 | every sequential recording keeps the economics in agreement with the log and bumps the revision once; unless throttled it leaves a successful write equal to memory, at interval zero always |
| `Recorder.RunEconomicsRecorder.FinishPhase` | src/workflow/economics.rs:89-101 | sets one phase duration, keeps the agreement, bumps the revision, and checkpoints like a command |
| `Recorder.RunEconomicsRecorder.RecordAgentCall` | src/workflow/economics.rs:103-110 | appends the call; the call count is the number of calls; checkpoints like a command |
| `Recorder.RunEconomicsRecorder.RecordRuntimeObservation` | src/workflow/economics.rs:172-195 | adds four counters, each stopping at its maximum; checkpoints like a command |
| `Recorder.RunEconomicsRecorder.MarkDirtyAndPersist` | src/workflow/economics.rs:205-208 | bumps the revision and writes a checkpoint exactly when there is a path and the last write is not too recent, without touching what was recorded |
| `Recorder.RunEconomicsRecorder.PersistSnapshotInner` | src/workflow/economics.rs:214-249 | writes exactly when there is a path, the revision is not persisted yet, and the write is forced, the first, or the interval over; a successful write leaves file and memory equal; one that fails changes neither the record (but for a checkpoint counter at its maximum) nor the persisted revision, so it is tried again |
| `Recorder.RunEconomicsRecorder.Snapshot` | src/workflow/economics.rs:197-203 | returns the current economics, after a forced checkpoint |
| `Recorder.ObservationsSaturate` | src/workflow/economics.rs:172-195 | any sequence of saturating observations equals one saturating addition of their sums, counter by counter, and changes nothing else |
| `Recorder.ReportMatchesLog` | src/workflow/economics.rs:112-162 | execution count equals cache misses equals the sum of per-key counts; hits, misses and skips are the log; duplicates equal violations equal keys run at least twice |
| `Checkpoints.StepKeepsInv` | src/workflow/economics.rs:205-249 | the checkpoint invariant survives every step of every thread: change, bump, take the lock, load, snapshot, write, mark |
| `Checkpoints.NoLostUpdate` | src/workflow/economics.rs:205-249 | under every interleaving, the file holds every mutation bumped at or before the persisted revision; once that is the current revision and nobody is between change and bump, file equals memory |
| `Checkpoints.FileOnlyGrows` | src/workflow/economics.rs:214-249 | later checkpoints never lose a mutation an earlier one held |
| `Checkpoints.ForcedCheckpointCatchesUp` | src/workflow/economics.rs:210-249 | from every quiet state a forced checkpoint can bring the file up to memory |
| `RecordingRace.RunKeepsInv` | src/workflow/economics.rs:112-162 | with charges and entries of several threads interleaved in any order, counts, pending charges and duplicate entries stay consistent |
| `RecordingRace.QuiescentCounts` | src/workflow/economics.rs:112-162 | once nothing is pending, all counters agree with the log in every interleaving, and duplicates are the keys run at least twice |
| `RecordingExactness.ExactUnlessOvertaking` | src/workflow/economics.rs:112-162 | in every interleaving, with one dedupe key per cache key, a duplicate records exactly its executions if and only if the last run of its key was not applied before another from the second on |
| `RecordingExactness.SerialIsExact` | src/workflow/economics.rs:112-162 | with one dedupe key per cache key, if no command is charged while another with its cache key is pending, whatever else is interleaved, every duplicate records exactly its executions |
| `RecordingExactness.EntriesRecordLastWritten` | src/workflow/economics.rs:150-157 | at any time of any interleaving, shared dedupe keys included, the first entry of a dedupe key records the executions written last under it, and every other entry of it records two |
| `RecordingExactness.EntryIsExact` | src/workflow/economics.rs:112-162 | in every interleaving, shared dedupe keys included, an entry is exact if and only if, for the first entry of a dedupe key, the executions written last under it are those of its own key, and, for any other entry, its key ran just twice |
| `RecordingExactness.OvertakingLosesARun` | src/workflow/economics.rs:112-162 | three threads and one command: an interleaving after which three executions are recorded as two |
| `BoundedTail.WholeTextWhenItFits` | src/agent.rs:760-780 | the tail is the whole text exactly when the text is within both bounds |
| `BoundedTail.TailOfTail` | src/agent.rs:760-780 | the tail of a tail with more text is the tail of the whole: the bounded append is a homomorphism |
| `BoundedTail.AppendBounded` | src/agent.rs:760-780 | drains bytes, then lines, in place; the result is the longest suffix of target and text that starts at a character boundary and is within both bounds, and the branch that clears the target for want of a newline is never taken |
| `BoundedTail.AppendChunks` | src/pi_contract.rs:1037-1050 | any cutting of a text into chunks gives the tail of the whole text |
| `BoundedTail.LinesCountNewlines` | src/agent.rs:632-638 | counting lines from both ends agrees: newlines, plus one for an unterminated last line |
| `Utf8Text.Utf8IsWellFormed` | src/agent.rs:760-780 | UTF-8 encoded text meets the boundary condition the tail relies on |
| `Utf8Text.FrontIsText` | src/agent.rs:760-780 | the front of a UTF-8 text is itself UTF-8 exactly when it ends at a character boundary |
| `LineStream.SplitJoins` | src/agent.rs:1219-1228 | the complete lines and the unterminated rest, joined, are the stream |
| `LineStream.JoinSplits` | src/agent.rs:1219-1228 | splitting what was joined gives the same lines and rest |
| `LineStream.LinesAre` | src/agent.rs:632-638 | the number of lines is the number of newlines, plus one for an unterminated last line |
| `LineStream.NextSegment` | src/agent.rs:1219-1221 | the next newline-terminated segment of a chunk, or the rest of the chunk |
| `LineStream.OutputSpillStats.Read` | src/agent.rs:658-674 | the statistics are those of exactly the bytes handed on; a chunk whose spill fails counts for nothing |
| `LineStream.OutputSpillStats.LineCount` | src/agent.rs:634-638 | the line count is the number of lines of all bytes read |
| `FileLines.LastOfLast` | src/agent.rs:1237-1246 | keeping the last bytes chunk by chunk keeps the last bytes of the whole |
| `FileLines.AppendBoundedBytes` | src/agent.rs:1237-1246 | the last bytes of target and addition |
| `FileLines.StripReturnIs` | src/agent.rs:1255 | at most one byte is stripped from a line, and only a carriage return |
| `FileLines.Decoded` | src/agent.rs:1255-1265 | a line as shown: decoded, then cut to its tail |
| `FileLines.IncrementalFileLines.EmitPendingFileLine` | src/agent.rs:1248-1270 | ends the pending line and emits it once |
| `FileLines.IncrementalFileLines.ConsumeChunk` | src/agent.rs:1219-1228 | the state after a chunk is the state for all bytes so far, however they were cut |
| `FileLines.IncrementalFileLines.ReadToEnd` | src/agent.rs:1213-1229 | reads exactly the bytes behind the offset, and moves the offset past what it read even when a read fails; it succeeds exactly when none of the reads made fails |
| `FileLines.IncrementalFileLines.EmitNewFileLines` | src/agent.rs:1201-1235 | one poll emits each newly completed line once, and on the final read the unterminated one; it succeeds exactly when there is no file or none of the reads made fails |
| `FileReads.ReadsMade` | src/agent.rs:1213-1229 | a poll makes at most one read more than there are new bytes: only a failure among those fails it |
| `FileLines.CollectFileLines` | src/agent.rs:1001-1071 | for every file that only grows once it is there, schedule of polls, some of which may find no file, and outcomes of reads: it succeeds exactly when none of the reads made fails, and then the events are the lines of the final file, each once and in order, and their number is the line count of the same bytes; a line within the bounds that decodes to itself is shown as it is, without one carriage return if it ends in one |
| `FileLines.PlainFileShown` | src/agent.rs:1001-1071 | a file of texts within the bounds, each ended by a newline or by a carriage return and a newline, is shown as these texts |
| `ActivityPainter.StripLineEnd` | src/cli.rs:1524-1528 | removes exactly the carriage returns at the end of a line |
| `ActivityPainter.ReadNewActivityLines` | src/cli.rs:1505-1536 | one poll returns the complete lines behind the offset and moves the offset just past the last newline; it never consumes a partial line; a truncated file is read from the start; it fails exactly when a line, or the unterminated rest, is not text |
| `ActivityPainter.PaintActivity` | src/cli.rs:1472-1480 | polls of a file that only grows, some of which may find none, go on until one finds something that is not text; what is shown are the complete lines of the file as found by then, each once and in order |
| `ActivityPainter.ReadableIsText` | src/cli.rs:1505-1536 | reading line by line, rest included, finds text exactly when the bytes as a whole are UTF-8 |
| `ActivityPainter.ShownUnlessCut` | src/cli.rs:1472-1536 | a file to which UTF-8 text is appended is shown to the end if and only if no poll finds it cut inside a character; if it ends with a complete line, all its lines are shown only then |
| `ActivityPainter.CutCharacterEndsPainter` | src/cli.rs:1472-1536 | one line of one two-byte character, polled between its bytes: the painter ends and the line is never shown |
| `PiParser.PiLineSpool.WriteAll` | src/pi_contract.rs:708-723 | the spool holds the exact concatenation of what was written, at most 64 KiB of it in memory, and moves to a file beyond that |
| `PiParser.HandleWireLine` | src/pi_contract.rs:853-872 | an event is parsed from the whole spooled line, never from the bounded tail |
| `PiParser.TakePayload` | src/pi_contract.rs:823-838 | taking a payload keeps spool and tail in step with the line so far |
| `PiParser.TakeSegment` | src/pi_contract.rs:823-845 | a newline hands the line on and starts a new one |
| `PiParser.ParseChunk` | src/pi_contract.rs:812-845 | after a chunk the parser stands where the bytes so far put it |
| `PiParser.Parse` | src/pi_contract.rs:812-851 | for every chunking of stdout the lines handled are those of the whole stream, byte for byte; what is displayed is their tails when the chunks are text |
| `LaunchFlags.RemoveJsonModeFlags` | src/pi_contract.rs:91-111 | drops each `--mode json` pair and each `--no-session`, and keeps the rest in order |
| `LaunchFlags.ExactlyFlagsAreRemoved` | src/pi_contract.rs:91-111 | what is removed is exactly each `--no-session`, each `--mode` before a `json` and each `json` behind a `--mode`; a `--mode` with another value stays |
| `LaunchFlags.OnlyFlagsAreRemoved` | src/pi_contract.rs:91-111 | what is left is a subsequence of the arguments that holds every argument that is not a flag, and no `--no-session` |
| `LaunchFlags.LaunchArgsAre` | src/pi_contract.rs:85-89 | launch arguments are the extra ones and the three flags |
| `LaunchFlags.RemovedAfterLaunch` | src/pi_contract.rs:85-111 | removing the flags from launch arguments leaves what removing them from the extra arguments leaves, even behind an unfinished `--mode` |
| `ActivityFormatter.PiActivityFormatter.TakeDeltaLines` | src/pi_contract.rs:351-358 | in place, exactly the buffer named is emptied and displayed (what that conserves: `TakeConserves`) |
| `ActivityFormatter.PiActivityFormatter.FlushCompacted` | src/pi_contract.rs:333-339 | in place, all buffers are emptied in order |
| `ActivityFormatter.PiActivityFormatter.FlushAllExcept` | src/pi_contract.rs:341-349 | in place, the two other buffers are emptied and displayed, this one is untouched |
| `ActivityFormatter.PiActivityFormatter.BeginDelta` | src/pi_contract.rs:299-303 | opens a block behind everything pending |
| `ActivityFormatter.PiActivityFormatter.RecordDelta` | src/pi_contract.rs:305-316 | appends a delta behind a flush of the others, and flushes at 240 characters |
| `ActivityFormatter.PiActivityFormatter.FinishDelta` | src/pi_contract.rs:318-331 | ends a block, with its content only if nothing of it was shown |
| `ActivityFormatter.PiActivityFormatter.RenderEvent` | src/pi_contract.rs:184-297 | the object, updated in place, takes exactly the step that `StepConserves`, `StreamConserves` and the rows of `ActivityDisplay` are about |
| `ActivityFormatter.TakeConserves` | src/pi_contract.rs:351-358 | taking a buffer moves its text to the display and nothing else |
| `ActivityFormatter.RecordConserves` | src/pi_contract.rs:305-316 | recording a delta conserves the text, kinds and order, and keeps the bound |
| `ActivityFormatter.FinishConserves` | src/pi_contract.rs:318-331 | ending a block conserves the text |
| `ActivityFormatter.StepConserves` | src/pi_contract.rs:184-297 | over any event: text taken and text pending are text pending before and text recorded; at most one buffer holds text, fewer than 240 characters each |
| `ActivityFormatter.StreamConserves` | src/pi_contract.rs:184-374 | over any stream: the recorded deltas, kinds included, are those taken so far and the pending ones, in arrival order, and the display shows what was taken |
| `ActivityFormatter.SilenceIsTracked` | src/pi_contract.rs:299-331 | a buffer knows whether its block has received any text yet |
| `ActivityFormatter.ContentOnlyForSilentBlocks` | src/pi_contract.rs:318-331 | the content of a block is displayed at its end exactly when no text of it arrived as deltas |
| `ActivityDisplay.EventsFlush` | src/pi_contract.rs:184-303 | every event but a delta, a delta's end and one that is no event displays everything pending, reasoning before text before tool calls, leaves nothing pending, and gives its own notice last |
| `ActivityDisplay.DeltasWait` | src/pi_contract.rs:305-316 | a delta displays what other kinds have pending and then, once its kind has 240 characters, all of its kind; one that goes on with the pending kind below 240 characters displays nothing |
| `ActivityDisplay.EndShows` | src/pi_contract.rs:318-331 | the end of a block displays the pending text of its kind, or the content if no text of the block ever came, and leaves the other kinds pending |
| `ActivityDisplay.OthersShowNothing` | src/pi_contract.rs:173-182 | a line that is not JSON gives one notice, an event without a type none, and both leave what is pending |
| `ActivityDisplay.SegmentShows` | src/pi_contract.rs:351-358 | a pending text is displayed as one line of its kind, unless nothing of it is visible |
| `ActivityDisplay.WarningsOnce` | src/pi_contract.rs:184-297 | each of the two warnings is given once |
| `JsonReplacement.StepKeepsInv` | src/artifact.rs:1571-1656 | every step of every writer and of the system keeps the replacement invariant |
| `JsonReplacement.ReplacementIsAtomic` | src/artifact.rs:1571-1656 | at any time, and after a crash at any time, the destination is the old bytes or the complete bytes of the writer that installed the entry seen: the last one installed, or the last one durable |
| `JsonReplacement.SuccessIsDurable` | src/artifact.rs:1622-1638 | when a writer reports success its replacement, or a later complete one, survives every crash |
| `JsonReplacement.FailureIsHarmless` | src/artifact.rs:1637-1655 | a failure before the installation never shows that writer's bytes and, if cleanup succeeds, leaves no temporary file; one after it leaves the complete file installed |
| `JsonReplacement.FailureLeavesNoFile` | src/artifact.rs:1637-1655 | if a writer created a temporary file in the run and has failed without a cleanup error, no directory entry names that file |
| `JsonReplacement.FailureCleansUp` | src/artifact.rs:1646-1653 | a writer that created a file fails for good only by a cleanup step, and what it reports is whether that step removed the file |
| `JsonReplacement.WriteSucceeds` | src/artifact.rs:1571-1638 | from every state a writer can create, write, synchronize, rename and synchronize the directory; then its bytes are what a reader sees and what a crash leaves, and the directory holds no new entry |
| `JsonReplacement.FailedWriteCleansUp` | src/artifact.rs:1616-1655 | and if its rename fails it can clean up so that the directory and the destination are as before |
| `SliceClosure.ArtifactStore.CloseSliceFile` | src/artifact.rs:631-651 | in place: an open, readable slice that is valid once closed is replaced, with status, run and time set and everything else kept, unless the write is refused, and nothing else changes anything; it succeeds exactly if that write is known to have succeeded or this run had closed the slice before at a time that is not blank |
| `SliceClosure.ArtifactStore.CloseSlicesIfPresent` | src/artifact.rs:590-629 | the loop over the ids leaves the store and the report that the rows below are about |
| `SliceClosure.OccurrenceCloses` | src/artifact.rs:597-628 | for each occurrence of a request: exactly when it is reported as closed, missing or failed, exactly when and how its file changes, and that no other file does |
| `SliceClosure.RequestCloses` | src/artifact.rs:590-651 | a request closes, and reports as closed, every slice it names that can be closed and whose first write succeeds |
| `SliceClosure.ClosedOnce` | src/artifact.rs:590-651 | over any requests by any runs, a closed slice never changes again, no file appears or disappears, and a slice that changed carries the metadata of one request that named it |
| `SliceClosure.EveryOccurrenceReported` | src/artifact.rs:597-628 | every requested occurrence becomes one closed id or one incident, in order |
| `SliceClosure.IncidentsSayWhy` | src/artifact.rs:599-625 | an incident says missing exactly when the file was absent |
| `SliceClosure.ReportedClosedIsClosed` | src/artifact.rs:613-614 | a slice reported closed is closed by the requesting run |
| `SliceClosure.RepeatedClose` | src/artifact.rs:635-650 | repeating a successful close by one run changes nothing, and succeeds exactly when the recorded time is not blank |
| `SliceClosure.RepeatedRequest` | src/artifact.rs:590-629 | repeating a request that had no incident, with a non-blank time, changes nothing and reports all ids again |
| `AgentProfiles.StripTomlComment` | src/artifact.rs:1742-1768 | cuts at the first `#` outside quotes, and at no other |
| `AgentProfiles.UnescapeTomlString` | src/artifact.rs:1830-1850 | resolves the four supported escapes, and fails at the first other or dangling one |
| `AgentProfiles.ParseTomlString` | src/artifact.rs:1770-1775 | accepts exactly text between two quotes whose escapes can be resolved |
| `AgentProfiles.ParseTomlStringArray` | src/artifact.rs:1777-1820 | the values of the fields between commas outside quotes, or the first problem; a trailing comma is allowed, an open quote is not |
| `AgentProfiles.ParseItems` | src/artifact.rs:1786-1819 | the loop over characters, with its two flags, gives the values of the fields, or the first problem in them |
| `AgentProfiles.AssignKey` | src/artifact.rs:1728-1737 | each of the seven keys sets its field from a value of its kind; any other key is an error |
| `AgentProfiles.SettingsAreIndependent` | src/artifact.rs:1728-1737 | settings of different keys can be made in either order; of two settings of one key the later stays |
| `AgentProfiles.LineRead` | src/artifact.rs:1703-1738 | keys always find the profile of their section, and no profile is ever dropped |
| `AgentProfiles.ParseAgentProfilesToml` | src/artifact.rs:1692-1740 | reads a file line by line, and reports the first problem with its line number |
| `ProfileErrors.FailureIsFirst` | src/artifact.rs:1697-1738 | a failure is reported exactly for the first line that cannot be read, with its number counted from 1 and its problem |
| `ProfileErrors.SectionLines` | src/artifact.rs:1703-1711 | a line that opens a bracket is rejected exactly if it is not a section header, or by its name if that is blank or holds white space |
| `ProfileErrors.KeyLines` | src/artifact.rs:1715-1722 | any other line is rejected before a section, and without an equals sign |
| `ProfileErrors.UnknownKeys` | src/artifact.rs:1737 | a key that is none of the seven is rejected by name |
| `ProfileErrors.OtherFlags` | src/artifact.rs:1735-1736 | a flag other than `true` and `false` is rejected |
| `Strings.TextLinesAre` | src/artifact.rs:1697 | the lines of texts ended by a newline, or a carriage return and a newline, are these texts, and what is left behind the last newline is one more |
| `ProfileRoundTrip.UnescapeEscape` | src/artifact.rs:1830-1850 | unescaping undoes escaping, for every text |
| `ProfileRoundTrip.QuotedRoundTrip` | src/artifact.rs:1770-1775 | a quoted string is read back, and survives trimming |
| `ProfileRoundTrip.ArrayRoundTrip` | src/artifact.rs:1777-1820 | every list of strings is read back, whatever commas, quotes, backslashes and `#` they hold |
| `ProfileRoundTrip.LayoutIsRemoved` | src/artifact.rs:1699-1702 | white space around a line and a comment behind it are removed, and nothing else |
| `ProfileRoundTrip.OnlyContentsMatter` | src/artifact.rs:1697-1739 | what a file gives depends only on its lines without comments, surrounding white space and empty lines |
| `ProfileRoundTrip.ConfigRoundTrip` | src/artifact.rs:1692-1740 | every configuration with safe names is read back from every file with its contents, in any order of sections and any layout |
| `ProfileRoundTrip.PrintedRoundTrip` | src/artifact.rs:1692-1740 | in particular from the printed file, with any comment and white space on each line |
| `ProfileRoundTrip.SectionNameRoundTrip` | src/artifact.rs:1703-1713 | a section line opens the section it names if and only if the name is not empty, holds no white space and no `#` outside quotes |
| `ShellQuoting.RunShellQuote` | src/agent.rs:1424-1433 | wherever it stands outside quotes, the quoted text adds exactly the text to the shell's current word; nothing for an empty text |
| `ShellQuoting.RunShellQuoteArg` | src/cli.rs:2214-2236 | wherever it stands outside quotes, the quoted text adds exactly the text to the shell's current word, and makes one for an empty text |
| `ShellQuoting.ShellQuoteArgRoundTrip` | src/cli.rs:2214-2236 | the shell reads every list of arguments, quoted and joined by spaces, back as it was |
| `ShellQuoting.ShellQuoteReadsNonEmpty` | src/agent.rs:1424-1433 | with the other quoter the shell reads back the non-empty arguments |
| `ShellQuoting.ShellQuoteRoundTrip` | src/agent.rs:1424-1433 | so that list comes back if and only if no argument is empty |
| `ShellQuoting.EnvironmentRoundTrip` | src/agent.rs:1368-1380 | sourcing the file assigns exactly the entries with valid names, empty values included |
| `ShellQuoting.ValidKeysAreNames` | src/agent.rs:1392-1396 | the keys the program accepts are exactly the names of the shell |
| `ShellQuoting.EnvFileText` | src/agent.rs:1368-1396 | sourced, the file gives the process environment overlaid with the job's, restricted to valid names |
| `Display.StripAnsi` | src/monitor.rs:1186-1202 | removes escape codes, complete or cut off at the end |
| `Display.CodeInFront` | src/monitor.rs:58-64 | an escape code in front of a text takes no cell |
| `Display.CodeBehind` | src/monitor.rs:58-64 | nor does one behind it, even if the text ends inside an unfinished code |
| `Display.TextStays` | src/monitor.rs:1186-1202 | text in which no code starts stays, lone escape characters included, whatever is behind it |
| `Display.UnfinishedCode` | src/monitor.rs:1186-1202 | a code without its letter takes the rest of the text with it |
| `Display.PaintIs` | src/monitor.rs:58-64 | painted text stands between its colour code and the reset, and is left alone without colour |
| `Display.PaintTakesNoCell` | src/monitor.rs:58-64 | painting changes no width |
| `Display.TruncateDisplay` | src/monitor.rs:1265-1288 | keeps what fits, otherwise the longest front that leaves a cell for the ellipsis |
| `Display.FittingIsLongest` | src/monitor.rs:1275-1287 | the front kept fits, and one more character would not |
| `Display.TruncatedFits` | src/monitor.rs:1265-1288 | for a text whose alphabet the width tables agree on, truncation never exceeds its width, and changes the text exactly when it does not fit |
| `Display.TruncationFitsExactly` | src/monitor.rs:1265-1288 | for any tables and text, truncation keeps to every width if and only if each front it can keep, with the ellipsis, measures no more as a text than the characters of the front (at least one cell) and one |
| `Display.TruncationExceeds` | src/monitor.rs:1265-1288 | where a tab counts for nothing alone and for one cell in a text, n tabs and two letters cut to two cells come out n cells too wide |
| `Display.TruncationLengthens` | src/monitor.rs:1265-1288 | truncation makes a text longer if and only if the text is wider than the width, which is two or more, while its characters add up to less; then nothing is cut and an ellipsis added, and unless that makes the text narrower it still does not fit |
| `Display.SumsMeasure` | src/monitor.rs:1204-1206 | where a text is as wide as its characters together, the tables agree on every alphabet: what the rows above and below assume is met |
| `Wrapping.SplitDisplayWord` | src/monitor.rs:1246-1263 | the loop over the characters returns the pieces that `SplitIsExact` describes |
| `Wrapping.SplitIsExact` | src/monitor.rs:1246-1263 | the pieces are the word; each fits or is one character wider than the width; none has room for the character after it |
| `Wrapping.WrapDisplay` | src/monitor.rs:1208-1244 | the loops over words and pieces return the specified lines, of which the rows below say that they keep every character, fit and are filled |
| `Wrapping.FillLines` | src/monitor.rs:1221-1239 | the loop that fills pieces into lines returns the groups that `GroupsAreFilled` describes, each joined by single spaces |
| `Wrapping.GroupsAreFilled` | src/monitor.rs:1221-1239 | the lines hold all pieces in order, and none has room for a space and the next piece |
| `Wrapping.WrappingKeepsVisible` | src/monitor.rs:1208-1244 | every character that is not white space is kept, in order |
| `Wrapping.WrappingKeepsWords` | src/monitor.rs:1208-1244 | the words of the lines, split at white space again, are the words of the text that fit and the pieces of those that do not, in order, if each takes some cell |
| `Wrapping.WordsSplit` | src/monitor.rs:1214 | words end at every white space |
| `Wrapping.OneWord` | src/monitor.rs:1214 | and nowhere else |
| `Wrapping.WrappedFits` | src/monitor.rs:1208-1244 | for a text on whose visible characters the width tables agree, every line fits if and only if the whole text does or every character that is not white space does; where they agree on its white space too, if and only if every such character does |
| `Frames.RowsRoundUp` | src/monitor.rs:1165-1168 | the rows of a line are its cells without codes, at least one, divided by the columns, at least one, and rounded up |
| `Frames.RowsAreFilled` | src/monitor.rs:1165-1168 | they are the rows that a terminal fills which goes on in the next row with the cells that are left |
| `Frames.TrimmedLogicalLines` | src/monitor.rs:1170-1176 | drops blank lines at the end, escape codes not counting |
| `Frames.BoundedBody` | src/monitor.rs:293-317 | the loop keeps and counts the lines that `BodyIsLongest` describes |
| `Frames.KeptIsLongest` | src/monitor.rs:302-311 | the kept lines fit their rows, and one more would not |
| `Frames.BodyIsLongest` | src/monitor.rs:293-317 | all lines are kept exactly when they fit; otherwise as many as fit above a marker, and the rest is counted whenever there is a row for a body |
| `Frames.FrameShowsMost` | src/monitor.rs:252-317 | a frame keeps everything if the screen has room for it above the footer and the cursor; otherwise so many lines that one more would not fit above the marker |
| `Frames.ComposeLiveFrame` | src/monitor.rs:252-271 | the text appended piece by piece is the cursor codes, each shown line cleared to its end, and the closing codes; `FrameFits` and `FrameShowsPrefix` say which lines those are |
| `Frames.LiveTextIs` | src/monitor.rs:252-271 | the codes spelled out: cursor home, each line cleared to its end, the rest of the screen cleared |
| `Frames.ComposeStaticFrame` | src/monitor.rs:273-291 | the text appended piece by piece is the same lines as in the live frame, each followed by a newline |
| `Frames.FooterFits` | src/monitor.rs:1125-1149 | the footer leaves the cursor its row, on every screen |
| `Frames.FooterIsFull` | src/monitor.rs:1136-1149 | it is the full one whenever that leaves the cursor its row, the cut short one otherwise |
| `Frames.MarkerTakesOneRow` | src/monitor.rs:259-263 | the marker, cut to the width, takes one row |
| `Frames.DigitsName` | src/monitor.rs:260 | the digits of the marker name the number |
| `Frames.MarkerNames` | src/monitor.rs:260 | the number in the marker, behind the ellipsis, is that of the missing lines |
| `Frames.FrameTextRows` | src/monitor.rs:252-291 | the text of a frame, escape codes and all, fills the rows of its lines |
| `Frames.FrameFits` | src/monitor.rs:252-317 | for every content, whatever its characters measure, and every width and number of rows, both frames fill at most one row less than the screen has, counted by what the terminal fills |
| `Frames.MonitorFrameFits` | src/monitor.rs:1125-1149 | in particular with the monitor's own footers |
| `Frames.FrameShowsPrefix` | src/monitor.rs:252-317 | a frame shows a prefix of the content's lines and, where it drops some and has rows for a body, a marker of one row with exactly their number |
| `Frames.FrameEndsWithFooter` | src/monitor.rs:252-291 | behind the content a frame has the marker, if lines are missing, and last the footer, if there is one, and nothing else |

## Left out

- Recorder.RunEconomicsRecorder.RecordCommand: assumes fewer commands than the largest machine word, so that the hit and miss counters cannot overflow and the saturating ones are exact.
- RecordingExactness.ExactUnlessOvertaking: assumes that different cache keys have different dedupe keys; `EntryIsExact` settles shared ones, by what was written last instead of by what overtook what.
- Checkpoints.NoLostUpdate: what a mutation does to the economics is not looked into, only that it happened; the 64-bit revision does not wrap around.
- PiParser.Parse: what an event does to results, usage and warnings, and the retained raw lines; parsing JSON.
- FileLines.CollectFileLines: files that shrink or are replaced between two polls that find them (`ActivityPainter.ReadNewActivityLines` covers a shrunk file for the activity painter); what a poll finds is the file as its last read sees it.
- JsonReplacement.ReplacementIsAtomic: permissions of the replaced file, the failure of directory creation and serialization before a writer starts, and platforms without directory synchronization.
- SliceClosure.ArtifactStore.CloseSliceFile: the field checks of a slice are one predicate, and a write is installed, installed with uncertain durability, or not installed.
- Display.TruncatedFits: assumes an alphabet on which the tables agree; `TruncationFitsExactly` does not. The tables themselves are not part of this model.
- Wrapping.WrappedFits: assumes that the tables agree on the visible characters of the text.
- Frames.FrameFits: a row holds as many cells as the terminal has columns, so a wide character that a terminal moves to the next row is not covered; the tables must agree on printable ASCII and on the three other characters of the footer and the marker.
- ActivityFormatter.PiActivityFormatter.RenderEvent: how a delta or a tool event becomes a line (snippets, redaction, tool details) is a function of it.
- ShellQuoting.EnvFileText: the process environment is a parameter.
- ShellQuoting.ShellQuoteArgRoundTrip: the reading is that of words as arguments; reserved words and assignment words in command position (`if`, `A=b`) are not in the model of the shell.
- ActivityPainter.PaintActivity: failures of opening, seeking and reading other than for bytes that are not text, and of writing to the terminal.
- The phase timer, setting repair attempts, and constructing agent call records: one assignment each.
- Choosing which monitor sections collapse, the sections' contents, and the colour codes other than that they take no cell.
- Worker questions, replanning and git publication: the deciding code is in `src/state.rs` and `src/gitutil.rs`, which are not part of this model.
- Process spawning, signals, sockets, SQLite, the wrapper script and the fake runner: foreign calls.
- Launch-failure classification, profile selection, configuration ranges, single-slice validation: each is settled by reading one branch.
- Machine integers other than the saturating counters are unbounded.
