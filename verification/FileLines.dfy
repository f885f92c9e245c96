/** The daemon's reader of a growing file: polled, it emits the lines that are new. */
module FileLines {
  import opened Collections
  import opened Outcomes
  import opened BoundedTail
  import opened FileReads
  import opened LineStream

  /** Retention limits, and lossy decoding of raw bytes to text. */
  datatype Runtime = Runtime(maxBytes: nat, maxLines: nat, lossy: seq<byte> -> seq<byte>)

  ghost predicate Decodes(rt: Runtime) {
    forall raw {:trigger rt.lossy(raw)} :: WellFormed(rt.lossy(raw))
  }

  // ---- bytes bounded from the front

  function LastBytes(s: seq<byte>, n: nat): seq<byte> {
    if |s| > n then s[|s| - n..] else s
  }

  lemma LastBytesAre(s: seq<byte>, n: nat)
    ensures |LastBytes(s, n)| == if |s| <= n then |s| else n
    ensures |LastBytes(s, n)| <= |s| && LastBytes(s, n) == s[|s| - |LastBytes(s, n)|..]
  {
  }

  lemma LastOfLast(a: seq<byte>, b: seq<byte>, n: nat)
    ensures LastBytes(LastBytes(a, n) + b, n) == LastBytes(a + b, n)
  {
  }

  method AppendBoundedBytes(target: seq<byte>, bytes: seq<byte>, maxBytes: nat) returns (r: seq<byte>)
    ensures r == LastBytes(target + bytes, maxBytes)
  {
    if maxBytes == 0 {
      return [];
    }
    r := target + bytes;
    if |r| > maxBytes {
      r := r[|r| - maxBytes..];
    }
  }

  // ---- the incremental reader

  function StripReturn(line: seq<byte>): seq<byte> {
    if line != [] && line[|line| - 1] == RETURN then line[..|line| - 1] else line
  }

  /** At most one byte is stripped, and only if it is a carriage return. */
  lemma StripReturnIs(line: seq<byte>)
    ensures |StripReturn(line)| <= |line| <= |StripReturn(line)| + 1 && StripReturn(line) == line[..|StripReturn(line)|]
    ensures |StripReturn(line)| < |line| <==> |line| > 0 && line[|line| - 1] == 13
  {
  }

  /** What is emitted for a line: its last bytes without a final carriage return, decoded and bounded. */
  ghost function Shown(rt: Runtime, line: seq<byte>): seq<byte> {
    Tail(rt.lossy(StripReturn(LastBytes(line, rt.maxBytes))), rt.maxBytes, rt.maxLines)
  }

  /** What a line shows where the bounds and the decoding leave it alone: itself, without one carriage return if
      it ends in one. */
  ghost predicate ShowsLine(rt: Runtime, line: seq<byte>, event: seq<byte>) {
    var text := if |line| > 0 && line[|line| - 1] == 13 then line[..|line| - 1] else line;
    |line| <= rt.maxBytes && Lines(text) <= rt.maxLines && rt.lossy(text) == text ==> event == text
  }

  lemma ShownLine(rt: Runtime, line: seq<byte>)
    requires Decodes(rt)
    ensures ShowsLine(rt, line, Shown(rt, line))
  {
    var text := if |line| > 0 && line[|line| - 1] == 13 then line[..|line| - 1] else line;
    StripReturnIs(line);
    assert StripReturn(line) == text;
    if |line| <= rt.maxBytes && Lines(text) <= rt.maxLines && rt.lossy(text) == text {
      LastBytesAre(line, rt.maxBytes);
      assert LastBytes(line, rt.maxBytes) == line;
      WholeTextWhenItFits(text, rt.maxBytes, rt.maxLines);
    }
  }

  ghost function ShownAll(rt: Runtime, lines: seq<seq<byte>>): seq<seq<byte>> {
    if lines == [] then [] else ShownAll(rt, lines[..|lines| - 1]) + [Shown(rt, lines[|lines| - 1])]
  }

  ghost predicate ShowLines(rt: Runtime, lines: seq<seq<byte>>, events: seq<seq<byte>>) {
    |events| == |lines| && forall k :: 0 <= k < |lines| ==> ShowsLine(rt, lines[k], events[k])
  }

  lemma {:induction false} AllShowTheirLines(rt: Runtime, lines: seq<seq<byte>>)
    requires Decodes(rt)
    ensures ShowLines(rt, lines, ShownAll(rt, lines))
  {
    if |lines| > 0 {
      AllShowTheirLines(rt, lines[..|lines| - 1]);
      ShownLine(rt, lines[|lines| - 1]);
    }
  }

  lemma ShownOneMore(rt: Runtime, lines: seq<seq<byte>>, line: seq<byte>)
    ensures ShownAll(rt, lines + [line]) == ShownAll(rt, lines) + [Shown(rt, line)]
  {
    assert (lines + [line])[..|lines|] == lines;
  }

  /** The reader's fields for a stream `seen` of which everything complete has been emitted. */
  ghost predicate Tracks(rt: Runtime, seen: seq<byte>, emitted: seq<seq<byte>>, pending: seq<byte>, nonempty: bool, total: nat) {
    && pending == LastBytes(Partial(seen), rt.maxBytes)
    && nonempty == (Partial(seen) != [])
    && total == |Complete(seen)|
    && emitted == ShownAll(rt, Complete(seen))
  }

  lemma TrackPayload(rt: Runtime, seen: seq<byte>, emitted: seq<seq<byte>>, pending: seq<byte>, nonempty: bool, total: nat, payload: seq<byte>)
    requires Tracks(rt, seen, emitted, pending, nonempty, total) && OneLine(payload)
    ensures Tracks(rt, seen + payload, emitted, LastBytes(pending + payload, rt.maxBytes), nonempty || payload != [], total)
  {
    AppendPayload(seen, payload);
    LastOfLast(Partial(seen), payload, rt.maxBytes);
  }

  lemma TrackNewline(rt: Runtime, seen: seq<byte>, emitted: seq<seq<byte>>, pending: seq<byte>, nonempty: bool, total: nat)
    requires Tracks(rt, seen, emitted, pending, nonempty, total)
    ensures Tracks(rt, seen + [NEWLINE], emitted + [Tail(rt.lossy(StripReturn(pending)), rt.maxBytes, rt.maxLines)], [], false, total + 1)
  {
    AppendNewline(seen);
    ShownOneMore(rt, Complete(seen), Partial(seen));
  }

  /** Decodes a line and bounds the text. */
  method Decoded(rt: Runtime, line: seq<byte>) returns (text: seq<byte>)
    requires Decodes(rt)
    ensures text == Tail(rt.lossy(line), rt.maxBytes, rt.maxLines)
  {
    var decoded := rt.lossy(line);
    text := AppendBounded([], decoded, rt.maxBytes, rt.maxLines);
    assert [] + decoded == decoded;
  }

  lemma ConcatSlice<T>(s: seq<T>, t: seq<T>, i: nat, j: nat)
    requires i <= j <= |t|
    ensures s + t[..i] + t[i..j] == s + t[..j]
  {
  }

  lemma NothingMore<T, U>(s: seq<T>, payload: seq<T>, t: seq<U>)
    ensures s + (payload + []) == s + payload && t + [] == t
  {
  }

  class IncrementalFileLines {
    const rt: Runtime
    var offset: nat
    var pending: seq<byte>
    var pendingNonempty: bool
    var totalLines: nat
    /** The bytes consumed, with a newline for each final read that ended an unterminated line. */
    ghost var seen: seq<byte>
    ghost var emitted: seq<seq<byte>>

    ghost predicate Valid()
      reads this
    {
      Decodes(rt) && Tracks(rt, seen, emitted, pending, pendingNonempty, totalLines)
    }

    constructor (rt: Runtime)
      requires Decodes(rt)
      ensures Valid() && this.rt == rt && offset == 0 && seen == [] && emitted == []
    {
      this.rt := rt;
      offset, pending, pendingNonempty, totalLines := 0, [], false, 0;
      seen, emitted := [], [];
    }

    method EmitPendingFileLine() returns (event: seq<byte>)
      requires Valid()
      modifies this
      ensures Valid() && offset == old(offset)
      ensures seen == old(seen) + [NEWLINE] && emitted == old(emitted) + [event]
    {
      TrackNewline(rt, seen, emitted, pending, pendingNonempty, totalLines);
      event := Decoded(rt, StripReturn(pending));
      pending, pendingNonempty := [], false;
      totalLines := totalLines + 1;
      seen, emitted := seen + [NEWLINE], emitted + [event];
    }

    method AppendPending(payload: seq<byte>)
      requires Valid() && OneLine(payload)
      modifies this
      ensures Valid() && offset == old(offset)
      ensures seen == old(seen) + payload && emitted == old(emitted)
    {
      TrackPayload(rt, seen, emitted, pending, pendingNonempty, totalLines, payload);
      pending := AppendBoundedBytes(pending, payload, rt.maxBytes);
      pendingNonempty := pendingNonempty || payload != [];
      seen := seen + payload;
    }

    method ConsumeSegment(payload: seq<byte>, complete: bool) returns (events: seq<seq<byte>>)
      requires Valid() && OneLine(payload)
      modifies this
      ensures Valid() && offset == old(offset)
      ensures seen == old(seen) + (payload + if complete then [NEWLINE] else [])
      ensures emitted == old(emitted) + events
    {
      AppendPending(payload);
      ConcatAssoc(old(seen), payload, if complete then [NEWLINE] else []);
      if complete {
        var event := EmitPendingFileLine();
        events := [event];
      } else {
        events := [];
        NothingMore(old(seen), payload, old(emitted));
      }
    }

    method ConsumeChunk(chunk: seq<byte>) returns (events: seq<seq<byte>>)
      requires Valid()
      modifies this
      ensures Valid() && offset == old(offset) + |chunk|
      ensures seen == old(seen) + chunk && emitted == old(emitted) + events
    {
      offset := offset + |chunk|;
      events := [];
      var at := 0;
      while at < |chunk|
        invariant at <= |chunk| && Valid() && offset == old(offset) + |chunk|
        invariant seen == old(seen) + chunk[..at] && emitted == old(emitted) + events
      {
        var payload, complete, next := NextSegment(chunk, at);
        var more := ConsumeSegment(payload, complete);
        ConcatSlice(old(seen), chunk, at, next);
        ConcatAssoc(old(emitted), events, more);
        events := events + more;
        at := next;
      }
      assert chunk[..at] == chunk;
    }

    /** In the middle of a poll that started with these, and has got and emitted those. */
    ghost predicate Polling(at: nat, read: seq<byte>, events: seq<seq<byte>>, seenBefore: seq<byte>, emittedBefore: seq<seq<byte>>)
      reads this
    {
      Valid() && offset == at && seen == seenBefore + read && emitted == emittedBefore + events
    }

    /** Consumes one more chunk of a poll. */
    method ConsumeNext(at: nat, chunk: seq<byte>, events: seq<seq<byte>>, ghost read: seq<byte>,
                       ghost seenBefore: seq<byte>, ghost emittedBefore: seq<seq<byte>>)
      returns (all: seq<seq<byte>>, ghost got: seq<byte>)
      requires Polling(at, read, events, seenBefore, emittedBefore)
      modifies this
      ensures Polling(at + |chunk|, got, all, seenBefore, emittedBefore) && got == read + chunk
    {
      var more := ConsumeChunk(chunk);
      ConcatAssoc(seenBefore, read, chunk);
      ConcatAssoc(emittedBefore, events, more);
      all, got := events + more, read + chunk;
    }

    /** Reads on until the end of the file, or until a read fails; `read` is what was read. */
    method ReadToEnd(text: seq<byte>, outcomes: Reads) returns (ok: bool, events: seq<seq<byte>>, ghost read: seq<byte>)
      requires Valid()
      modifies this
      ensures Valid() && emitted == old(emitted) + events && seen == old(seen) + read
      ensures offset == old(offset) + |read| && read == Between(text, old(offset), offset)
      ensures ok <==> AllSucceed(outcomes, 0, Left(text, old(offset)))
      ensures ok ==> Left(text, offset) == 0
    {
      events, read := [], [];
      ghost var from := offset;
      var at: nat, k: nat := offset, 0;
      ReadingStarts(text, outcomes, from);
      NothingMore(seen, [], emitted);
      while true
        invariant Polling(at, read, events, old(seen), old(emitted))
        invariant Reading(text, outcomes, from, k, at, read)
        decreases Left(text, at)
      {
        if outcomes(k).None? {
          break;
        }
        var n := ReadSize(outcomes(k).value, Left(text, at));
        if n == 0 {
          break;
        }
        ReadingNext(text, outcomes, from, k, at, read, n);
        var chunk := text[at..at + n];
        at, k := at + n, k + 1;
        events, read := ConsumeNext(at - n, chunk, events, read, old(seen), old(emitted));
      }
      ReadingEnds(text, outcomes, from, k, at, read);
      ok := outcomes(k).Some?;
    }

    /** One poll of the file; the final one also emits an unterminated last line. */
    method EmitNewFileLines(file: Option<seq<byte>>, outcomes: Reads, finalRead: bool)
      returns (ok: bool, events: seq<seq<byte>>, ghost read: seq<byte>)
      requires Valid()
      modifies this
      ensures Valid() && emitted == old(emitted) + events
      ensures offset == old(offset) + |read|
      ensures read == if file.Some? then Between(file.value, old(offset), offset) else []
      ensures ok <==> file.None? || AllSucceed(outcomes, 0, Left(file.value, old(offset)))
      ensures ok && file.Some? ==> Left(file.value, offset) == 0
      ensures seen == old(seen) + read
                      + if ok && finalRead && file.Some? && Partial(old(seen) + read) != [] then [NEWLINE] else []
    {
      if file.None? {
        return true, [], [];
      }
      ok, events, read := ReadToEnd(file.value, outcomes);
      if ok && finalRead && pendingNonempty {
        var event := EmitPendingFileLine();
        ConcatAssoc(old(emitted), events, [event]);
        events := events + [event];
      }
    }
  }

  /** What successive polls find: no file, or a file that has only been appended to. */
  ghost predicate OnlyAppended(polls: seq<Option<seq<byte>>>) {
    forall i, j :: 0 <= i < j < |polls| && polls[i].Some? && polls[j].Some? ==> polls[i].value <= polls[j].value
  }

  /** The contents at the last poll that found the file. */
  ghost function Latest(polls: seq<Option<seq<byte>>>): seq<byte> {
    if polls == [] then []
    else if polls[|polls| - 1].Some? then polls[|polls| - 1].value
    else Latest(polls[..|polls| - 1])
  }

  /** The lines to show after these polls, the last of which ends an unterminated line if it finds the file. */
  ghost function PolledLines(polls: seq<Option<seq<byte>>>): seq<seq<byte>> {
    if polls != [] && polls[|polls| - 1].Some? then AllLines(Latest(polls)) else Complete(Latest(polls))
  }

  lemma {:induction false} LatestGrows(polls: seq<Option<seq<byte>>>, i: nat)
    requires OnlyAppended(polls) && i < |polls| && polls[i].Some?
    ensures Latest(polls[..i]) <= polls[i].value
  {
    LatestIs(polls[..i]);
  }

  lemma {:induction false} LatestIs(polls: seq<Option<seq<byte>>>)
    ensures Latest(polls) == [] || exists i :: 0 <= i < |polls| && polls[i] == Some(Latest(polls))
  {
    if polls != [] && polls[|polls| - 1].None? {
      var front := polls[..|polls| - 1];
      LatestIs(front);
      if i :| 0 <= i < |front| && front[i] == Some(Latest(front)) {
        assert polls[i] == Some(Latest(polls));
      }
    } else if polls != [] {
      assert polls[|polls| - 1] == Some(Latest(polls));
    }
  }

  /** No read of the i-th poll fails, of those it makes for what it finds appended. */
  ghost predicate PollSucceeds(polls: seq<Option<seq<byte>>>, outcomes: seq<Reads>, i: nat)
    requires i < |polls| == |outcomes|
  {
    polls[i].Some? ==> AllSucceed(outcomes[i], 0, Left(polls[i].value, |Latest(polls[..i])|))
  }

  /** Polling an append-only file, the last time with the final read: unless a read fails, every line is emitted
      exactly once and in order, whatever the polls found and however the reads were cut, and the line total is
      their number. */
  method CollectFileLines(rt: Runtime, polls: seq<Option<seq<byte>>>, outcomes: seq<Reads>)
    returns (ok: bool, events: seq<seq<byte>>, total: nat)
    requires Decodes(rt) && polls != [] && |outcomes| == |polls| && OnlyAppended(polls)
    ensures ok <==> forall i :: 0 <= i < |polls| ==> PollSucceeds(polls, outcomes, i)
    ensures ok ==> events == ShownAll(rt, PolledLines(polls)) && total == |PolledLines(polls)|
    ensures ok && polls[|polls| - 1].Some? ==> total == Lines(polls[|polls| - 1].value)
    ensures ok ==> ShowLines(rt, PolledLines(polls), events)
  {
    var state := new IncrementalFileLines(rt);
    ok, events, total := true, [], 0;
    for i := 0 to |polls|
      invariant fresh(state) && state.Valid() && state.rt == rt && state.emitted == events && total == state.totalLines
      invariant HasPolled(polls, i, state.seen, state.offset)
      invariant ok && forall j :: 0 <= j < i ==> PollSucceeds(polls, outcomes, j)
    {
      ghost var before := state.seen;
      var more;
      ghost var read;
      ok, more, read := state.EmitNewFileLines(polls[i], outcomes[i], i == |polls| - 1);
      assert ok <==> PollSucceeds(polls, outcomes, i);
      if !ok {
        return;
      }
      events := events + more;
      total := state.totalLines;
      PollOnce(polls, i, before, read, state.seen, state.offset);
    }
    AllEmitted(rt, polls, state.seen, state.emitted, state.pending, state.pendingNonempty, state.totalLines, state.offset);
  }

  /** What has been emitted after all polls. */
  lemma AllEmitted(rt: Runtime, polls: seq<Option<seq<byte>>>, seen: seq<byte>, emitted: seq<seq<byte>>,
                   pending: seq<byte>, nonempty: bool, total: nat, offset: nat)
    requires Decodes(rt) && Tracks(rt, seen, emitted, pending, nonempty, total)
    requires polls != [] && HasPolled(polls, |polls|, seen, offset)
    ensures emitted == ShownAll(rt, PolledLines(polls)) && total == |PolledLines(polls)|
    ensures polls[|polls| - 1].Some? ==> total == Lines(polls[|polls| - 1].value)
    ensures ShowLines(rt, PolledLines(polls), emitted)
  {
    AllPolled(polls, seen, offset);
    AllShowTheirLines(rt, PolledLines(polls));
  }

  /** The line is the text, which does not end in a carriage return, or has one behind it. */
  ghost predicate IsLineOf(line: seq<byte>, text: seq<byte>) {
    (line == text && (|text| > 0 ==> text[|text| - 1] != 13)) || line == text + [13]
  }

  /** Within the bounds, and decoded to itself. */
  ghost predicate IsPlain(rt: Runtime, line: seq<byte>, text: seq<byte>) {
    OneLine(text) && |line| <= rt.maxBytes && Lines(text) <= rt.maxLines && rt.lossy(text) == text
  }

  lemma PlainLineShown(rt: Runtime, line: seq<byte>, text: seq<byte>, event: seq<byte>)
    requires IsLineOf(line, text) && IsPlain(rt, line, text) && ShowsLine(rt, line, event)
    ensures event == text
  {
    assert line == text + [13] ==> line[..|line| - 1] == text;
  }

  /** So a file of plain texts, each ended by a newline or by a carriage return and a newline, is shown as these
      texts. */
  lemma PlainFileShown(rt: Runtime, lines: seq<seq<byte>>, texts: seq<seq<byte>>)
    requires Decodes(rt) && |lines| == |texts|
    requires forall i :: 0 <= i < |texts| ==> IsLineOf(lines[i], texts[i]) && IsPlain(rt, lines[i], texts[i])
    ensures ShownAll(rt, AllLines(Terminated(lines))) == texts
  {
    assert AllOneLine(lines);
    JoinSplits(lines, []);
    assert Terminated(lines) + [] == Terminated(lines) && lines + [] == lines;
    AllShowTheirLines(rt, lines);
    forall i | 0 <= i < |texts|
      ensures ShownAll(rt, lines)[i] == texts[i]
    {
      PlainLineShown(rt, lines[i], texts[i], ShownAll(rt, lines)[i]);
    }
  }

  /** What the reader has seen after i polls. */
  ghost predicate HasPolled(polls: seq<Option<seq<byte>>>, i: nat, seen: seq<byte>, offset: nat)
    requires i <= |polls|
  {
    if i < |polls| then seen == Latest(polls[..i]) && offset == |seen|
    else seen == Latest(polls) + FinalNewline(polls)
  }

  /** The newline that the final read stands for, if it finds an unterminated line. */
  ghost function FinalNewline(polls: seq<Option<seq<byte>>>): seq<byte> {
    if polls != [] && polls[|polls| - 1].Some? && Partial(polls[|polls| - 1].value) != [] then [NEWLINE] else []
  }

  lemma PollOnce(polls: seq<Option<seq<byte>>>, i: nat, before: seq<byte>, read: seq<byte>, after: seq<byte>, offset: nat)
    requires i < |polls| && OnlyAppended(polls) && HasPolled(polls, i, before, |before|)
    requires offset == |before| + |read|
    requires read == if polls[i].Some? then Between(polls[i].value, |before|, offset) else []
    requires polls[i].Some? ==> Left(polls[i].value, offset) == 0
    requires after == before + read
                      + if i == |polls| - 1 && polls[i].Some? && Partial(before + read) != [] then [NEWLINE] else []
    ensures HasPolled(polls, i + 1, after, offset)
  {
    assert polls[..i + 1][..i] == polls[..i] && polls[..|polls|] == polls;
    if polls[i].Some? {
      LatestGrows(polls, i);
      WholeRead(before, polls[i].value, read);
    } else {
      assert before + read == before;
    }
    assert before + read + [] == before + read;
  }

  lemma AllPolled(polls: seq<Option<seq<byte>>>, seen: seq<byte>, offset: nat)
    requires polls != [] && HasPolled(polls, |polls|, seen, offset)
    ensures Complete(seen) == PolledLines(polls)
    ensures polls[|polls| - 1].Some? ==> |PolledLines(polls)| == Lines(polls[|polls| - 1].value)
  {
    FinalLines(Latest(polls));
    assert Latest(polls) + [] == Latest(polls);
  }

  lemma WholeRead(before: seq<byte>, file: seq<byte>, read: seq<byte>)
    requires before <= file && read == Between(file, |before|, |before| + |read|) && Left(file, |before| + |read|) == 0
    ensures before + read == file
  {
  }

  lemma FinalLines(file: seq<byte>)
    ensures Complete(file + if Partial(file) == [] then [] else [NEWLINE]) == AllLines(file)
    ensures |AllLines(file)| == Lines(file)
  {
    LinesAre(file);
    if Partial(file) == [] {
      assert file + [] == file;
    } else {
      AppendNewline(file);
    }
  }
}
